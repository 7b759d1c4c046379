/** `Pubid::Iso::Supplement` (lib/pubid/iso/supplement.rb): a version with an
    optional number and stage, its wildcard equality, and its renderings in
    the human-readable and the URN form. */
module IsoSupplement {
  import opened RubyText
  import opened IdentifierFields
  import IsoUrn
  import IsoIdentifier

  /** `version`, `number` and `stage`; None is nil. */
  datatype Supplement = Supplement(version: Option<string>, number: Option<string>, stage: Option<string>)

  /** `a == b`, sent to `a`: the versions agree, and so do the number and
      the stage wherever `a` has one; a nil on `a`'s side matches anything. */
  predicate Equal(a: Supplement, b: Supplement)
    ensures Equal(a, b) ==> b.version == a.version
    ensures a.number.None? && a.stage.None? ==> (Equal(a, b) <==> b.version == a.version)
    ensures a.number.Some? && b.number != a.number ==> !Equal(a, b)
    ensures a.stage.Some? && b.stage != a.stage ==> !Equal(a, b)
  {
    b.version == a.version
    && (a.number.None? || b.number == a.number)
    && (a.stage.None? || b.stage == a.stage)
  }

  /** "Equal" reads as "`b` refines `a`": a reflexive, transitive and
      antisymmetric relation. */
  lemma EqualReflexive(a: Supplement)
    ensures Equal(a, a)
  {
  }

  lemma EqualTransitive(a: Supplement, b: Supplement, c: Supplement)
    requires Equal(a, b) && Equal(b, c)
    ensures Equal(a, c)
  {
  }

  lemma EqualAntisymmetric(a: Supplement, b: Supplement)
    ensures Equal(a, b) && Equal(b, a) <==> a == b
  {
  }

  /** It is not symmetric: a supplement without a number equals one with a
      number, but not the other way round. */
  lemma EqualNotSymmetric()
    ensures var a := Supplement(Some("1"), None, None);
      var b := Supplement(Some("1"), Some("2009"), None);
      Equal(a, b) && !Equal(b, a)
  {
  }

  /** A supplement with both a number and a stage equals only itself. */
  lemma EqualWhenSpecific(a: Supplement, b: Supplement)
    requires a.number.Some? && a.stage.Some?
    ensures Equal(a, b) <==> a == b
  {
  }

  /** `render_pubid_stage`: the stage, or "". */
  function PubidStage(s: Supplement): (r: string)
    ensures s.stage.None? ==> r == ""
    ensures s.stage.Some? ==> r == s.stage.value
  {
    s.stage.GetOr("")
  }

  /** `render_pubid_number`: "version:number", or the version alone. */
  function PubidNumber(s: Supplement): (r: string)
    ensures s.number.None? ==> r == s.version.GetOr("")
    ensures s.number.Some? ==> var v := s.version.GetOr("");
      |r| == |v| + 1 + |s.number.value| && r[..|v|] == v && r[|v|] == ':' && r[|v| + 1..] == s.number.value
  {
    if s.number.Some? then s.version.GetOr("") + ":" + s.number.value else s.version.GetOr("")
  }

  /** The number text splits at ":" into the version and the number. */
  lemma PubidNumberSplits(s: Supplement)
    requires s.version.Some? && s.version.value != "" && ':' !in s.version.value
    requires s.number.Some? && s.number.value != "" && ':' !in s.number.value
    ensures Split(PubidNumber(s), ':') == [s.version.value, s.number.value]
  {
    var xs := [s.version.value, s.number.value];
    assert Join(xs, ":") == s.version.value + ":" + s.number.value by {
      assert xs[1..] == [s.number.value];
    }
    SplitOfJoin(xs, ':');
  }

  /** Without a number, the number text is the version, with no ":". */
  lemma PubidNumberWithoutNumber(s: Supplement)
    requires s.number.None? && s.version.Some? && ':' !in s.version.value
    ensures PubidNumber(s) == s.version.value && ':' !in PubidNumber(s)
  {
  }

  /** `render_urn_stage`: ":stage-" and the harmonized code of the stage, or
      "" without a stage; a stage outside the table cannot be formatted. */
  function UrnStage(s: Supplement): (r: Result<string>)
    ensures r.Ok? <==> s.stage.None? || IsoUrn.StageLookup(s.stage.value).Some?
    ensures s.stage.None? ==> r == Ok("")
    ensures s.stage.Some? && r.Ok? ==>
              var code := IsoUrn.CodeText(IsoUrn.StageLookup(s.stage.value).value);
              |r.value| == 7 + |code| && r.value[..7] == ":stage-" && r.value[7..] == code
    ensures r.Err? ==> r == Err(UnknownStage(s.stage.value))
  {
    if s.stage.None? then Ok("")
    else match IsoUrn.StageLookup(s.stage.value)
      case None => Err(UnknownStage(s.stage.value))
      case Some(code) => Ok(":stage-" + IsoUrn.CodeText(code))
  }

  /** The supplement's URN stage is the stage part the URN class prints
      for the same stage when there is no iteration. */
  lemma UrnStageAsUrnClass(s: Supplement, f: Fields)
    requires s.stage.Some? && Iteration !in f
    ensures UrnStage(s) == IsoUrn.RenderStage(f, Str(s.stage.value))
  {
    if IsoUrn.StageLookup(s.stage.value).Some? {
      var c := IsoUrn.CodeText(IsoUrn.StageLookup(s.stage.value).value);
      assert ":stage-" + c + "" == ":stage-" + c;
    }
  }

  /** `render_urn_number`: ":number:vversion", or ":version:v1" without a
      number. */
  function UrnNumber(s: Supplement): (r: string)
    ensures |r| >= 3 && r[0] == ':'
    ensures s.number.Some? ==> var n := s.number.value;
      |r| == |n| + 3 + |s.version.GetOr("")| && r[1..|n| + 1] == n && r[|n| + 1..] == ":v" + s.version.GetOr("")
    ensures s.number.None? ==> var v := s.version.GetOr("");
      |r| == |v| + 4 && r[1..|v| + 1] == v && r[|v| + 1..] == ":v1"
  {
    if s.number.Some? then ":" + s.number.value + ":v" + s.version.GetOr("")
    else ":" + s.version.GetOr("") + ":v1"
  }

  /** Without a number, the URN takes the version for the number and
      version 1: the same text as number = the version, version = "1". */
  lemma UrnNumberWithoutNumber(s: Supplement)
    requires s.number.None?
    ensures UrnNumber(s) == UrnNumber(Supplement(Some("1"), Some(s.version.GetOr("")), s.stage))
  {
  }

  /** The human-readable number is what the identifier's own supplement
      text prints after "Amd ", with and without a number. */
  lemma PubidNumberAsIdentifier(s: Supplement, f: Fields)
    requires Amendment in f && s.version == Some(Text(f, AmendmentVersion))
    requires s.number == if AmendmentNumber in f then Some(Text(f, AmendmentNumber)) else None
    ensures IsoIdentifier.AmendmentText(f) == IsoIdentifier.SupplementHead(f, AmendmentStage) + "Amd " + PubidNumber(s)
  {
  }

  /** With a number, the URN number is what the URN class prints after
      ":amd"; without one the two differ, since the URN class prints
      ":amd:v" and the version while this prints the version as the number
      and "v1", two characters longer. */
  lemma UrnNumberAsUrnClass(s: Supplement, f: Fields)
    requires Amendment in f && s.version == Some(Text(f, AmendmentVersion))
    requires s.number == if AmendmentNumber in f then Some(Text(f, AmendmentNumber)) else None
    ensures AmendmentNumber in f ==> IsoUrn.AmendmentSegment(f) == ":amd" + UrnNumber(s)
    ensures AmendmentNumber !in f ==> IsoUrn.AmendmentSegment(f) != ":amd" + UrnNumber(s)
  {
    if AmendmentNumber !in f {
      var a, u := IsoUrn.AmendmentSegment(f), ":amd" + UrnNumber(s);
      assert |a| == 6 + |Text(f, AmendmentVersion)| && |u| == 8 + |Text(f, AmendmentVersion)|;
    }
  }

  /** Supplements that are equal both ways render alike, in both forms. */
  lemma MutuallyEqualRenderAlike(a: Supplement, b: Supplement)
    requires Equal(a, b) && Equal(b, a)
    ensures PubidStage(a) == PubidStage(b) && PubidNumber(a) == PubidNumber(b)
    ensures UrnStage(a) == UrnStage(b) && UrnNumber(a) == UrnNumber(b)
  {
    EqualAntisymmetric(a, b);
  }
}
