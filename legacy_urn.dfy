/** The older URN renderer `PubidIso::URN` (lib/pubid_iso/urn.rb), which
    reads the accessors of the identifier it wraps: no supplements, no
    language, and the stage printed from its numeric parts. */
module LegacyUrn {
  import opened RubyText
  import opened IdentifierFields
  import IsoUrn

  /** The accessors `PubidIso::URN` calls on its identifier (`docType` is
      `type`); None is nil. */
  datatype LegacyIdentifier = LegacyIdentifier(
    publisher: Option<string>, copublisher: Option<string>, docType: Option<string>,
    number: Option<string>, part: Option<string>, stage: Option<string>,
    substage: Option<int>, edition: Option<string>)

  /** `originator`: the lower-cased publisher, then "-" and the lower-cased
      copublisher with every "/" turned into "-". */
  function Originator(id: LegacyIdentifier): Result<string> {
    if id.publisher.None? then Err(NilReceiver("downcase"))
    else if id.copublisher.Some? then
      Ok(Downcase(id.publisher.value) + "-" + Gsub(Downcase(id.copublisher.value), '/', '-'))
    else Ok(Downcase(id.publisher.value))
  }

  function TypeSegment(id: LegacyIdentifier): string {
    if id.docType.Some? then ":" + Downcase(id.docType.value) else ""
  }

  function PartSegment(id: LegacyIdentifier): string {
    if id.part.Some? then ":-" + id.part.value else ""
  }

  /** `stage`: ":stage-", the stage, "." and the substage as two digits; a
      stage without a substage cannot be formatted. */
  function StageSegment(id: LegacyIdentifier): Result<string> {
    if id.stage.None? then Ok("")
    else if id.substage.None? then Err(NilArgument("%02d"))
    else Ok(":stage-" + id.stage.value + "." + Sprintf02d(id.substage.value))
  }

  function EditionSegment(id: LegacyIdentifier): string {
    if id.edition.Some? then ":ed-" + id.edition.value else ""
  }

  /** `to_s`. It fails exactly when there is no publisher to lower-case or
      when a stage comes without a substage to format, in that order. */
  function UrnText(id: LegacyIdentifier): (r: Result<string>)
    ensures r.Ok? <==> id.publisher.Some? && (id.stage.None? || id.substage.Some?)
    ensures id.publisher.None? ==> r == Err(NilReceiver("downcase"))
    ensures id.publisher.Some? && id.stage.Some? && id.substage.None? ==> r == Err(NilArgument("%02d"))
    ensures r.Ok? ==> Originator(id).Ok? && StageSegment(id).Ok?
    ensures r.Ok? ==>
              r.value == "urn:iso:std:" + Originator(id).value + TypeSegment(id) + ":"
                         + id.number.GetOr("") + PartSegment(id) + StageSegment(id).value + EditionSegment(id)
  {
    match Originator(id)
    case Err(e) => Err(e)
    case Ok(o) =>
      match StageSegment(id)
      case Err(e) => Err(e)
      case Ok(s) =>
        Ok("urn:iso:std:" + o + TypeSegment(id) + ":" + id.number.GetOr("") + PartSegment(id) + s
           + EditionSegment(id))
  }

  /** A two-digit substage can be read back from the last two characters of
      the stage segment, after the ".". */
  lemma SubstageReadsBack(id: LegacyIdentifier)
    requires id.stage.Some? && id.substage.Some? && 0 <= id.substage.value < 100
    ensures StageSegment(id).Ok?
    ensures var s := StageSegment(id).value;
      |s| >= 10 && s[..7] == ":stage-" && s[|s| - 3] == '.' &&
      IsDigit(s[|s| - 2]) && IsDigit(s[|s| - 1]) &&
      (s[|s| - 2] as int - '0' as int) * 10 + (s[|s| - 1] as int - '0' as int) == id.substage.value
  {
    var n := id.substage.value;
    var t := Sprintf02d(n);
    var s := StageSegment(id).value;
    assert s == ":stage-" + id.stage.value + "." + t;
    assert s[|s| - 2] == t[0] && s[|s| - 1] == t[1];
  }

  /** The accessor that corresponds to a variable of the newer class. */
  function Accessor(id: LegacyIdentifier, a: Attr): Option<string> {
    match a
    case Publisher => id.publisher
    case Copublisher => id.copublisher
    case Type => id.docType
    case Number => id.number
    case Part => id.part
    case Edition => id.edition
    case _ => None
  }

  /** The same identifier as a variable table of the newer `Pubid::Iso::Urn`
      (the stage apart, which the two classes represent differently). */
  function FieldsOf(id: LegacyIdentifier): (f: Fields)
    ensures forall a :: a in f <==> Accessor(id, a).Some?
    ensures forall a :: a in f ==> f[a] == Str(Accessor(id, a).value)
  {
    map a | a in {Publisher, Copublisher, Type, Number, Part, Edition} && Accessor(id, a).Some? ::
      Str(Accessor(id, a).value)
  }

  /** Without a stage, the older and the newer URN render an identifier
      alike. */
  lemma AgreesWithCurrentUrn(id: LegacyIdentifier)
    requires id.stage.None?
    ensures UrnText(id) == IsoUrn.UrnText(FieldsOf(id))
  {
    CurrentOriginatorAgrees(id);
    NoStageSegment(id);
    if Originator(id).Ok? {
      TailAgrees(id, FieldsOf(id), Originator(id).value, "");
    }
  }

  lemma NoStageSegment(id: LegacyIdentifier)
    requires id.stage.None?
    ensures IsoUrn.StageSegment(FieldsOf(id)) == Ok("")
  {
    assert Accessor(id, Stage).None? && Accessor(id, AmendmentStage).None? && Accessor(id, CorrigendumStage).None?;
  }

  /** Once originator and stage agree, so does the rest of the URN. */
  lemma TailAgrees(id: LegacyIdentifier, f: Fields, o: string, s: string)
    requires forall a :: a != Stage ==> (a in f <==> a in FieldsOf(id)) && (a in f ==> f[a] == FieldsOf(id)[a])
    requires Originator(id) == Ok(o) && StageSegment(id) == Ok(s) && IsoUrn.StageSegment(f) == Ok(s)
    ensures UrnText(id) == IsoUrn.Assemble(o, f)
  {
    SegmentsAgree(id, FieldsOf(id));
    IsoUrn.AssembleIgnoresStageKey(f, FieldsOf(id));
    var t, n, p, e := TypeSegment(id), id.number.GetOr(""), PartSegment(id), EditionSegment(id);
    AssembleWithoutSupplements(o, f, t, n, p, s, e);
  }

  /** The newer URN of a table without supplements or language. */
  lemma AssembleWithoutSupplements(o: string, f: Fields, t: string, n: string, p: string, s: string, e: string)
    requires IsoUrn.TypeSegment(f) == Ok(t) && Text(f, Number) == n && IsoUrn.PartSegment(f) == p
    requires IsoUrn.StageSegment(f) == Ok(s) && IsoUrn.EditionSegment(f) == e
    requires IsoUrn.SupplementSegment(f) == "" && IsoUrn.LanguageSegment(f) == ""
    ensures IsoUrn.Assemble(o, f) == Ok("urn:iso:std:" + o + t + ":" + n + p + s + e)
  {
    var w := "urn:iso:std:" + o + t + ":" + n + p + s + e;
    assert w + "" + "" == w;
  }

  /** The segments both classes print agree, and the newer class adds
      nothing for the attributes the older one lacks. */
  lemma SegmentsAgree(id: LegacyIdentifier, f: Fields)
    requires f == FieldsOf(id)
    ensures IsoUrn.TypeSegment(f) == Ok(TypeSegment(id))
    ensures Text(f, Number) == id.number.GetOr("")
    ensures IsoUrn.PartSegment(f) == PartSegment(id)
    ensures IsoUrn.EditionSegment(f) == EditionSegment(id)
    ensures IsoUrn.SupplementSegment(f) == "" && IsoUrn.LanguageSegment(f) == ""
  {
    assert Accessor(id, Type) == id.docType && Accessor(id, Number) == id.number;
    assert Accessor(id, Part) == id.part && Accessor(id, Edition) == id.edition;
    assert Accessor(id, Amendment).None? && Accessor(id, Corrigendum).None? && Accessor(id, Language).None?;
  }

  /** A single copublisher gives the same originator in both classes. */
  lemma CurrentOriginatorAgrees(id: LegacyIdentifier)
    ensures Originator(id) == IsoUrn.OriginatorText(FieldsOf(id))
  {
    var f := FieldsOf(id);
    assert Accessor(id, Publisher) == id.publisher;
    assert Accessor(id, Copublisher) == id.copublisher;
    if id.publisher.Some? && id.copublisher.Some? {
      assert f[Publisher] == Str(id.publisher.value) && f[Copublisher] == Str(id.copublisher.value);
      SingleCopublisherSegment(id.publisher.value, id.copublisher.value);
    }
  }

  /** One copublisher gives one "-" segment, lower-cased with "/" as "-". */
  lemma SingleCopublisherSegment(p: string, c: string)
    ensures Downcase(p) + Segments(SortedCopublishers(Str(c)), "-", '/', '-', true)
         == Downcase(p) + "-" + Gsub(Downcase(c), '/', '-')
  {
    SortedSingleCopublisher(c);
    SegmentsOfOne(Downcase(p), SortedCopublishers(Str(c)), c);
  }

  lemma SegmentsOfOne(d: string, names: seq<string>, c: string)
    requires names == [c]
    ensures d + Segments(names, "-", '/', '-', true) == d + "-" + Gsub(Downcase(c), '/', '-')
  {
    assert names[1..] == [];
  }

  lemma SortedSingleCopublisher(c: string)
    ensures SortedCopublishers(Str(c)) == [c]
  {
    assert MapToS(AsArray(Str(c))) == [c];
    assert Sort([c]) == Insert(c, []) == [c];
  }

  /** With the stage given as the two numbers of a harmonized code, the
      older URN prints what the newer one prints for that stage's name. */
  lemma AgreesOnStage(id: LegacyIdentifier, i: nat)
    requires i < |IsoUrn.Stages|
    requires id.stage == Some(Sprintf02d(IsoUrn.Stages[i].1.major))
    requires id.substage == Some(IsoUrn.Stages[i].1.minor)
    ensures UrnText(id) == IsoUrn.UrnText(FieldsOf(id)[Stage := Str(IsoUrn.Stages[i].0)])
  {
    var f := FieldsOf(id)[Stage := Str(IsoUrn.Stages[i].0)];
    CurrentOriginatorAgrees(id);
    IsoUrn.AssembleIgnoresStage(FieldsOf(id), Str(IsoUrn.Stages[i].0));
    StageAgrees(id, i, f);
    if Originator(id).Ok? {
      TailAgrees(id, f, Originator(id).value, StageSegment(id).value);
    }
  }

  lemma StageAgrees(id: LegacyIdentifier, i: nat, f: Fields)
    requires i < |IsoUrn.Stages|
    requires id.stage == Some(Sprintf02d(IsoUrn.Stages[i].1.major))
    requires id.substage == Some(IsoUrn.Stages[i].1.minor)
    requires f == FieldsOf(id)[Stage := Str(IsoUrn.Stages[i].0)]
    ensures IsoUrn.StageSegment(f) == StageSegment(id)
  {
    assert Iteration !in f by {
      assert Accessor(id, Iteration).None?;
    }
    IsoUrn.StageCodeWithoutIteration(f, i);
    var code := IsoUrn.Stages[i].1;
    StageSegmentOfCode(id, Sprintf02d(code.major), code.minor);
  }

  lemma StageSegmentOfCode(id: LegacyIdentifier, major: string, minor: nat)
    requires id.stage == Some(major) && id.substage == Some(minor)
    ensures StageSegment(id) == Ok(":stage-" + (major + "." + Sprintf02d(minor)))
  {
    assert ":stage-" + (major + "." + Sprintf02d(minor)) == ":stage-" + major + "." + Sprintf02d(minor);
  }
}
