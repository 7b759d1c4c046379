/** URNs expected by the identifier examples
    (spec/pubid_iso/identifier_spec.rb), computed by the model of
    `Pubid::Iso::Urn`; the examples' `PubidIso::Identifier` is read as
    `Pubid::Iso::Identifier`, whose `urn` hands its table to that class.
    The parser's Hash for each identifier is written out by hand as the
    instance-variable table (the grammar is outside the model); its tokens
    are ones the transformer leaves as they are. */
module IdentifierExamples {
  import opened RubyText
  import opened IdentifierFields
  import IsoUrn
  import IsoIdentifier
  import Transformer
  import RussianRenderer

  // ---------------------------------------------------------------------
  // Small facts the examples share
  // ---------------------------------------------------------------------

  /** Latin publisher, copublisher and stage tokens pass the transformer
      unchanged, except the spellings it rewrites. */
  lemma LatinTokens(token: string)
    requires RussianRenderer.Latin(token)
    ensures Transformer.Apply(Publisher, token) == token
    ensures token != "CEI" ==> Transformer.Apply(Copublisher, token) == token
    ensures Transformer.LegacyStage(token).None? ==> Transformer.Apply(Stage, token) == token
    ensures Transformer.LegacyStage(token).None? ==> Transformer.Apply(AmendmentStage, token) == token
    ensures token != "GUIDE" ==> Transformer.Apply(Type, token) == token
  {
    RussianRenderer.LatinIsNoRussianWord(token);
  }

  /** The tokens of the examples below come out of the transformer as the
      parser produced them, so the hand-written tables hold the transformed
      values. */
  lemma ExampleTokensKept()
    ensures Transformer.Apply(Publisher, "ISO") == "ISO" && Transformer.Apply(Copublisher, "IEC") == "IEC"
    ensures Transformer.Apply(Stage, "FDIS") == "FDIS" && Transformer.Apply(AmendmentStage, "CD") == "CD"
    ensures Transformer.Apply(Type, "TR") == "TR"
  {
    LatinTokens("ISO");
    LatinTokens("IEC");
    LatinTokens("FDIS");
    LatinTokens("CD");
    LatinTokens("TR");
  }

  lemma DowncaseIs(s: string, t: string)
    requires |s| == |t| && forall i :: 0 <= i < |s| ==> LowerChar(s[i]) == t[i]
    ensures Downcase(s) == t
  {
  }

  lemma GsubAbsent(s: string, from: char, to: char)
    requires from !in s
    ensures Gsub(s, from, to) == s
  {
  }

  /** The originator of a publisher with one copublisher. */
  lemma OneCopublisher(f: Fields, p: string, c: string, lp: string, lc: string)
    requires Publisher in f && f[Publisher] == Str(p) && Copublisher in f && f[Copublisher] == Str(c)
    requires Downcase(p) == lp && Downcase(c) == lc && '/' !in lc
    ensures IsoUrn.OriginatorText(f) == Ok(lp + "-" + lc)
  {
    assert AsArray(Str(c)) == [Str(c)];
    assert MapToS([Str(c)]) == [c];
    assert Sort([c]) == Insert(c, []) == [c];
    assert SortedCopublishers(f[Copublisher]) == [c];
    GsubAbsent(lc, '/', '-');
    assert Gsub(if true then Downcase(c) else c, '/', '-') == lc;
    assert Segments([c], "-", '/', '-', true) == "-" + lc + Segments([c][1..], "-", '/', '-', true);
    assert [c][1..] == [];
    assert "-" + lc + "" == "-" + lc;
    assert IsoUrn.OriginatorText(f) == Ok(Downcase(p) + Segments(SortedCopublishers(f[Copublisher]), "-", '/', '-', true));
    assert Downcase(p) + ("-" + lc) == lp + "-" + lc;
  }

  /** The harmonized codes "50.00" (approval) and "30.00" (committee),
      each stated about the value it is given so that callers never unfold
      the formatting themselves. */
  lemma ApprovalCode(r: string)
    requires r == IsoUrn.CodeText(IsoUrn.StageCode(50, 0))
    ensures r == "50.00"
  {
    assert NatToString(50) == NatToString(5) + [Digit(0)] == "50";
    assert Sprintf02d(0) == "0" + NatToString(0) == "00";
  }

  lemma CommitteeCode(r: string)
    requires r == IsoUrn.CodeText(IsoUrn.StageCode(30, 0))
    ensures r == "30.00"
  {
    assert NatToString(30) == NatToString(3) + [Digit(0)] == "30";
    assert Sprintf02d(0) == "0" + NatToString(0) == "00";
  }

  lemma ApprovalSegment(r: Result<string>)
    requires r == Ok(":stage-" + IsoUrn.CodeText(IsoUrn.StageCode(50, 0)))
    ensures r == Ok(":stage-50.00")
  {
    var c := IsoUrn.CodeText(IsoUrn.StageCode(50, 0));
    ApprovalCode(c);
    assert ":stage-" + c == ":stage-50.00";
  }

  /** The URN of a table whose segments are known. */
  lemma UrnFromParts(f: Fields, o: string, t: string, n: string, part: string, st: string, e: string, sup: string, l: string)
    requires IsoUrn.OriginatorText(f) == Ok(o) && IsoUrn.TypeSegment(f) == Ok(t) && IsoUrn.StageSegment(f) == Ok(st)
    requires Text(f, Number) == n && IsoUrn.PartSegment(f) == part && IsoUrn.EditionSegment(f) == e
    requires IsoUrn.SupplementSegment(f) == sup && IsoUrn.LanguageSegment(f) == l
    ensures IsoUrn.UrnText(f) == Ok("urn:iso:std:" + o + t + ":" + n + part + st + e + sup + l)
  {
  }

  /** The stage segment for the table's stage `i` with no iteration, taken
      from the stage variable or, without one, from a supplement's. */
  lemma StageSegmentOf(f: Fields, a: Attr, i: nat)
    requires i < |IsoUrn.Stages| && Iteration !in f
    requires a == Stage || (a == AmendmentStage && Stage !in f)
    requires a in f && f[a] == Str(IsoUrn.Stages[i].0)
    ensures IsoUrn.StageSegment(f) == Ok(":stage-" + IsoUrn.CodeText(IsoUrn.Stages[i].1))
  {
    IsoUrn.StageCodeWithoutIteration(f, i);
  }

  // ---------------------------------------------------------------------
  // URNs
  // ---------------------------------------------------------------------

  /** The fields parsed from "ISO/IEC FDIS 7816-6". */
  predicate FdisFields(f: Fields) {
    f.Keys == {Publisher, Copublisher, Stage, Number, Part}
    && f[Publisher] == Str("ISO") && f[Copublisher] == Str("IEC") && f[Stage] == Str("FDIS")
    && f[Number] == Str("7816") && f[Part] == Str("6")
  }

  lemma FdisOriginator(f: Fields)
    requires FdisFields(f)
    ensures IsoUrn.OriginatorText(f) == Ok("iso-iec")
  {
    DowncaseIs("ISO", "iso");
    DowncaseIs("IEC", "iec");
    OneCopublisher(f, "ISO", "IEC", "iso", "iec");
    assert "iso" + "-" + "iec" == "iso-iec";
  }

  lemma FdisStage(f: Fields)
    requires FdisFields(f)
    ensures IsoUrn.StageSegment(f) == Ok(":stage-50.00")
  {
    StageSegmentOf(f, Stage, 6);
    ApprovalSegment(IsoUrn.StageSegment(f));
  }

  lemma FdisRest(f: Fields)
    requires FdisFields(f)
    ensures IsoUrn.TypeSegment(f) == Ok("") && Text(f, Number) == "7816" && IsoUrn.PartSegment(f) == ":-6"
    ensures IsoUrn.EditionSegment(f) == "" && IsoUrn.SupplementSegment(f) == "" && IsoUrn.LanguageSegment(f) == ""
  {
  }

  /** "ISO/IEC FDIS 7816-6" becomes "urn:iso:std:iso-iec:7816:-6:stage-50.00". */
  lemma FdisWithCopublisher(f: Fields)
    requires FdisFields(f)
    ensures IsoUrn.UrnText(f) == Ok("urn:iso:std:iso-iec:7816:-6:stage-50.00")
  {
    FdisOriginator(f);
    FdisStage(f);
    FdisRest(f);
    UrnFromParts(f, "iso-iec", "", "7816", ":-6", ":stage-50.00", "", "", "");
    FdisLiteral(IsoUrn.UrnText(f));
  }

  lemma FdisLiteral(r: Result<string>)
    requires r == Ok("urn:iso:std:" + "iso-iec" + "" + ":" + "7816" + ":-6" + ":stage-50.00" + "" + "" + "")
    ensures r == Ok("urn:iso:std:iso-iec:7816:-6:stage-50.00")
  {
    var s := "urn:iso:std:" + "iso-iec" + "" + ":" + "7816" + ":-6" + ":stage-50.00" + "" + "" + "";
    assert "urn:iso:std:" + "iso-iec" + "" == "urn:iso:std:iso-iec";
    assert "urn:iso:std:iso-iec" + ":" + "7816" == "urn:iso:std:iso-iec:7816";
    assert "urn:iso:std:iso-iec:7816" + ":-6" + ":stage-50.00" == "urn:iso:std:iso-iec:7816:-6:stage-50.00";
    var w := "urn:iso:std:iso-iec:7816:-6:stage-50.00";
    assert s == w + "" + "" + "";
    assert w + "" == w;
  }

  /** The originator of a publisher alone. */
  lemma SolePublisher(f: Fields, p: string, lp: string)
    requires Publisher in f && f[Publisher] == Str(p) && Copublisher !in f && Downcase(p) == lp
    ensures IsoUrn.OriginatorText(f) == Ok(lp)
  {
  }

  lemma TypeIs(f: Fields, t: string, lt: string)
    requires Type in f && f[Type] == Str(t) && Downcase(t) == lt
    ensures IsoUrn.TypeSegment(f) == Ok(":" + lt)
  {
  }

  lemma NoStage(f: Fields)
    requires Stage !in f && AmendmentStage !in f && CorrigendumStage !in f
    ensures IsoUrn.StageSegment(f) == Ok("")
  {
  }

  lemma IterationIs(f: Fields, it: string)
    requires Iteration in f && f[Iteration] == Str(it)
    ensures IsoUrn.IterationSegment(f) == ".v" + it
  {
  }

  /** An amendment with a version and no number, and no corrigendum. */
  lemma AmendmentVersionOnly(f: Fields, v: string)
    requires Amendment in f && AmendmentNumber !in f && AmendmentVersion in f && f[AmendmentVersion] == Str(v)
    requires Corrigendum !in f
    ensures IsoUrn.SupplementSegment(f) == ":amd:v" + v
  {
    assert IsoUrn.AmendmentSegment(f) + "" == IsoUrn.AmendmentSegment(f);
  }

  /** No part, edition, supplement or language. */
  lemma PlainRest(f: Fields, n: string)
    requires Number in f && f[Number] == Str(n)
    requires Part !in f && Edition !in f && Amendment !in f && Corrigendum !in f && Language !in f
    ensures Text(f, Number) == n && IsoUrn.PartSegment(f) == "" && IsoUrn.EditionSegment(f) == ""
    ensures IsoUrn.SupplementSegment(f) == "" && IsoUrn.LanguageSegment(f) == ""
  {
  }

  /** The fields parsed from "ISO/TR 30406:2017". */
  predicate TechnicalReportFields(f: Fields) {
    f.Keys == {Publisher, Type, Number, Year}
    && f[Publisher] == Str("ISO") && f[Type] == Str("TR") && f[Number] == Str("30406") && f[Year] == Str("2017")
  }

  /** "ISO/TR 30406:2017" becomes "urn:iso:std:iso:tr:30406": the type is
      lower-cased and the year is not part of the URN. */
  lemma TechnicalReport(f: Fields)
    requires TechnicalReportFields(f)
    ensures IsoUrn.UrnText(f) == Ok("urn:iso:std:iso:tr:30406")
  {
    DowncaseIs("ISO", "iso");
    DowncaseIs("TR", "tr");
    SolePublisher(f, "ISO", "iso");
    TypeIs(f, "TR", "tr");
    NoStage(f);
    PlainRest(f, "30406");
    UrnFromParts(f, "iso", ":" + "tr", "30406", "", "", "", "", "");
    TechnicalReportLiteral(IsoUrn.UrnText(f));
  }

  lemma TechnicalReportLiteral(r: Result<string>)
    requires r == Ok("urn:iso:std:" + "iso" + (":" + "tr") + ":" + "30406" + "" + "" + "" + "" + "")
    ensures r == Ok("urn:iso:std:iso:tr:30406")
  {
    var w := "urn:iso:std:iso:tr:30406";
    assert "urn:iso:std:" + "iso" + (":" + "tr") + ":" + "30406" == w;
    assert w + "" == w;
  }

  /** The fields parsed from "ISO/FDIS 21420.2". */
  predicate IteratedFields(f: Fields) {
    f.Keys == {Publisher, Stage, Number, Iteration}
    && f[Publisher] == Str("ISO") && f[Stage] == Str("FDIS") && f[Number] == Str("21420") && f[Iteration] == Str("2")
  }

  lemma ApprovalIterated(r: Result<string>, it: string)
    requires r == Ok(":stage-" + IsoUrn.CodeText(IsoUrn.StageCode(50, 0)) + it)
    ensures r == Ok(":stage-50.00" + it)
  {
    var c := IsoUrn.CodeText(IsoUrn.StageCode(50, 0));
    ApprovalCode(c);
    assert ":stage-" + c == ":stage-50.00";
  }

  /** The final draft's second iteration. */
  lemma SecondApprovalDraft(f: Fields)
    requires Stage in f && f[Stage] == Str("FDIS") && Iteration in f && f[Iteration] == Str("2")
    ensures IsoUrn.StageSegment(f) == Ok(":stage-50.00" + (".v" + "2"))
  {
    IsoUrn.StageCodeEntry(f, 6);
    IterationIs(f, "2");
    ApprovalIterated(IsoUrn.StageSegment(f), ".v" + "2");
  }

  lemma IteratedParts(f: Fields)
    requires IteratedFields(f)
    ensures IsoUrn.OriginatorText(f) == Ok("iso") && IsoUrn.TypeSegment(f) == Ok("")
    ensures Text(f, Number) == "21420" && IsoUrn.PartSegment(f) == "" && IsoUrn.EditionSegment(f) == ""
    ensures IsoUrn.SupplementSegment(f) == "" && IsoUrn.LanguageSegment(f) == ""
  {
    DowncaseIs("ISO", "iso");
    SolePublisher(f, "ISO", "iso");
    PlainRest(f, "21420");
  }

  /** "ISO/FDIS 21420.2" becomes "urn:iso:std:iso:21420:stage-50.00.v2":
      the iteration follows the stage code. */
  lemma Iterated(f: Fields)
    requires IteratedFields(f)
    ensures IsoUrn.UrnText(f) == Ok("urn:iso:std:iso:21420:stage-50.00.v2")
  {
    IteratedParts(f);
    SecondApprovalDraft(f);
    UrnFromParts(f, "iso", "", "21420", "", ":stage-50.00" + (".v" + "2"), "", "", "");
    IteratedLiteral(IsoUrn.UrnText(f));
  }

  lemma IteratedLiteral(r: Result<string>)
    requires r == Ok("urn:iso:std:" + "iso" + "" + ":" + "21420" + "" + (":stage-50.00" + (".v" + "2")) + "" + "" + "")
    ensures r == Ok("urn:iso:std:iso:21420:stage-50.00.v2")
  {
    var w := "urn:iso:std:iso:21420";
    assert "urn:iso:std:" + "iso" + "" + ":" + "21420" == w;
    assert w + "" == w;
    var v := "urn:iso:std:iso:21420:stage-50.00.v2";
    assert w + (":stage-50.00" + (".v" + "2")) == v;
    assert v + "" == v;
  }

  /** The fields parsed from "ISO/IEC 10646:2020/CD Amd 1". */
  predicate DraftAmendmentFields(f: Fields) {
    f.Keys == {Publisher, Copublisher, Number, Year, Amendment, AmendmentVersion, AmendmentStage}
    && f[Publisher] == Str("ISO") && f[Copublisher] == Str("IEC") && f[Number] == Str("10646")
    && f[Year] == Str("2020") && f[Amendment] == Str("Amd") && f[AmendmentVersion] == Str("1")
    && f[AmendmentStage] == Str("CD")
  }

  lemma CommitteeSegment(r: Result<string>)
    requires r == Ok(":stage-" + IsoUrn.CodeText(IsoUrn.StageCode(30, 0)))
    ensures r == Ok(":stage-30.00")
  {
    var c := IsoUrn.CodeText(IsoUrn.StageCode(30, 0));
    CommitteeCode(c);
    assert ":stage-" + c == ":stage-30.00";
  }

  /** A committee-draft amendment to a document with no stage of its own. */
  lemma CommitteeDraftAmendment(f: Fields)
    requires Stage !in f && AmendmentStage in f && f[AmendmentStage] == Str("CD") && Iteration !in f
    ensures IsoUrn.StageSegment(f) == Ok(":stage-30.00")
  {
    StageSegmentOf(f, AmendmentStage, 4);
    CommitteeSegment(IsoUrn.StageSegment(f));
  }

  lemma DraftAmendmentParts(f: Fields)
    requires DraftAmendmentFields(f)
    ensures IsoUrn.OriginatorText(f) == Ok("iso" + "-" + "iec") && IsoUrn.TypeSegment(f) == Ok("")
    ensures Text(f, Number) == "10646" && IsoUrn.PartSegment(f) == "" && IsoUrn.EditionSegment(f) == ""
    ensures IsoUrn.SupplementSegment(f) == ":amd:v" + "1" && IsoUrn.LanguageSegment(f) == ""
  {
    DraftAmendmentOriginator(f);
    AmendmentVersionOnly(f, "1");
  }

  lemma DraftAmendmentOriginator(f: Fields)
    requires DraftAmendmentFields(f)
    ensures IsoUrn.OriginatorText(f) == Ok("iso" + "-" + "iec")
  {
    DowncaseIs("ISO", "iso");
    DowncaseIs("IEC", "iec");
    OneCopublisher(f, "ISO", "IEC", "iso", "iec");
  }

  /** "ISO/IEC 10646:2020/CD Amd 1" becomes
      "urn:iso:std:iso-iec:10646:stage-30.00:amd:v1": without a stage of its
      own the document takes the amendment's, and without a number the
      amendment part is the version alone. */
  lemma DraftAmendment(f: Fields)
    requires DraftAmendmentFields(f)
    ensures IsoUrn.UrnText(f) == Ok("urn:iso:std:iso-iec:10646:stage-30.00:amd:v1")
  {
    DraftAmendmentParts(f);
    CommitteeDraftAmendment(f);
    UrnFromParts(f, "iso" + "-" + "iec", "", "10646", "", ":stage-30.00", "", ":amd:v" + "1", "");
    DraftAmendmentLiteral(IsoUrn.UrnText(f));
  }

  lemma DraftAmendmentLiteral(r: Result<string>)
    requires r == Ok("urn:iso:std:" + ("iso" + "-" + "iec") + "" + ":" + "10646" + "" + ":stage-30.00" + "" + (":amd:v" + "1") + "")
    ensures r == Ok("urn:iso:std:iso-iec:10646:stage-30.00:amd:v1")
  {
    var w := "urn:iso:std:iso-iec:10646";
    assert "urn:iso:std:" + ("iso" + "-" + "iec") + "" + ":" + "10646" == w;
    assert w + "" == w;
    var v := "urn:iso:std:iso-iec:10646:stage-30.00";
    assert w + ":stage-30.00" == v;
    assert v + "" == v;
    var u := "urn:iso:std:iso-iec:10646:stage-30.00:amd:v1";
    assert v + (":amd:v" + "1") == u;
    assert u + "" == u;
  }

  /** A numbered amendment and no corrigendum. */
  lemma NumberedAmendmentOnly(f: Fields, v: string, n: string)
    requires Amendment in f && AmendmentVersion in f && f[AmendmentVersion] == Str(v)
    requires AmendmentNumber in f && f[AmendmentNumber] == Str(n) && Corrigendum !in f
    ensures IsoUrn.SupplementSegment(f) == ":amd:" + n + ":v" + v
  {
    var a := IsoUrn.AmendmentSegment(f);
    assert a == a[..5] + a[5..];
    assert a + "" == a;
  }

  /** A numbered amendment, then a numbered corrigendum. */
  lemma NumberedSupplements(f: Fields, av: string, an: string, cv: string, cn: string)
    requires Amendment in f && AmendmentVersion in f && f[AmendmentVersion] == Str(av)
    requires AmendmentNumber in f && f[AmendmentNumber] == Str(an)
    requires Corrigendum in f && CorrigendumVersion in f && f[CorrigendumVersion] == Str(cv)
    requires CorrigendumNumber in f && f[CorrigendumNumber] == Str(cn)
    ensures IsoUrn.SupplementSegment(f) == (":amd:" + an + ":v" + av) + (":cor:" + cn + ":v" + cv)
  {
    var a, c := IsoUrn.AmendmentSegment(f), IsoUrn.CorrigendumSegment(f);
    assert a == a[..5] + a[5..];
    assert c == c[..5] + c[5..];
  }

  /** The fields parsed from "ISO 13688:2013/Amd 1:2021(en)": the
      amendment's version is 1 and its number (its year) 2021. */
  predicate NumberedAmendmentFields(f: Fields) {
    f.Keys == {Publisher, Number, Year, Amendment, AmendmentVersion, AmendmentNumber, Language}
    && f[Publisher] == Str("ISO") && f[Number] == Str("13688") && f[Year] == Str("2013")
    && f[Amendment] == Str("Amd") && f[AmendmentVersion] == Str("1") && f[AmendmentNumber] == Str("2021")
    && f[Language] == Str("en")
  }

  lemma NumberedAmendmentParts(f: Fields)
    requires NumberedAmendmentFields(f)
    ensures IsoUrn.OriginatorText(f) == Ok("iso") && IsoUrn.TypeSegment(f) == Ok("") && IsoUrn.StageSegment(f) == Ok("")
    ensures Text(f, Number) == "13688" && IsoUrn.PartSegment(f) == "" && IsoUrn.EditionSegment(f) == ""
    ensures IsoUrn.SupplementSegment(f) == ":amd:" + "2021" + ":v" + "1" && IsoUrn.LanguageSegment(f) == ":" + "en"
  {
    DowncaseIs("ISO", "iso");
    SolePublisher(f, "ISO", "iso");
    NoStage(f);
    NumberedAmendmentOnly(f, "1", "2021");
  }

  /** "ISO 13688:2013/Amd 1:2021(en)" becomes
      "urn:iso:std:iso:13688:amd:2021:v1:en": the amendment part is its
      number, then "v" and its version, and the language comes last. */
  lemma NumberedAmendment(f: Fields)
    requires NumberedAmendmentFields(f)
    ensures IsoUrn.UrnText(f) == Ok("urn:iso:std:iso:13688:amd:2021:v1:en")
  {
    NumberedAmendmentParts(f);
    UrnFromParts(f, "iso", "", "13688", "", "", "", ":amd:" + "2021" + ":v" + "1", ":" + "en");
    NumberedAmendmentLiteral(IsoUrn.UrnText(f));
  }

  lemma NumberedAmendmentLiteral(r: Result<string>)
    requires r == Ok("urn:iso:std:" + "iso" + "" + ":" + "13688" + "" + "" + "" + (":amd:" + "2021" + ":v" + "1") + (":" + "en"))
    ensures r == Ok("urn:iso:std:iso:13688:amd:2021:v1:en")
  {
    var w := "urn:iso:std:iso:13688";
    assert "urn:iso:std:" + "iso" + "" + ":" + "13688" == w;
    assert w + "" == w;
    var v := "urn:iso:std:iso:13688:amd:2021:v1";
    assert w + (":amd:" + "2021" + ":v" + "1") == v;
    assert v + (":" + "en") == "urn:iso:std:iso:13688:amd:2021:v1:en";
  }

  /** The fields parsed from "ISO/IEC 13818-1:2015/Amd 3:2016/Cor 1:2017". */
  predicate AmendedAndCorrectedFields(f: Fields) {
    f.Keys == {Publisher, Copublisher, Number, Part, Year, Amendment, AmendmentVersion, AmendmentNumber,
               Corrigendum, CorrigendumVersion, CorrigendumNumber}
    && f[Publisher] == Str("ISO") && f[Copublisher] == Str("IEC") && f[Number] == Str("13818")
    && f[Part] == Str("1") && f[Year] == Str("2015")
    && f[Amendment] == Str("Amd") && f[AmendmentVersion] == Str("3") && f[AmendmentNumber] == Str("2016")
    && f[Corrigendum] == Str("Cor") && f[CorrigendumVersion] == Str("1") && f[CorrigendumNumber] == Str("2017")
  }

  lemma AmendedAndCorrectedOriginator(f: Fields)
    requires AmendedAndCorrectedFields(f)
    ensures IsoUrn.OriginatorText(f) == Ok("iso" + "-" + "iec")
  {
    DowncaseIs("ISO", "iso");
    DowncaseIs("IEC", "iec");
    OneCopublisher(f, "ISO", "IEC", "iso", "iec");
  }

  lemma AmendedAndCorrectedParts(f: Fields)
    requires AmendedAndCorrectedFields(f)
    ensures IsoUrn.TypeSegment(f) == Ok("") && IsoUrn.StageSegment(f) == Ok("")
    ensures Text(f, Number) == "13818" && IsoUrn.PartSegment(f) == ":-" + "1" && IsoUrn.EditionSegment(f) == ""
    ensures IsoUrn.SupplementSegment(f) == (":amd:" + "2016" + ":v" + "3") + (":cor:" + "2017" + ":v" + "1")
    ensures IsoUrn.LanguageSegment(f) == ""
  {
    NoStage(f);
    NumberedSupplements(f, "3", "2016", "1", "2017");
  }

  /** "ISO/IEC 13818-1:2015/Amd 3:2016/Cor 1:2017" becomes
      "urn:iso:std:iso-iec:13818:-1:amd:2016:v3:cor:2017:v1": the amendment
      part, then the corrigendum part, each as number and version. */
  lemma AmendedAndCorrected(f: Fields)
    requires AmendedAndCorrectedFields(f)
    ensures IsoUrn.UrnText(f) == Ok("urn:iso:std:iso-iec:13818:-1:amd:2016:v3:cor:2017:v1")
  {
    AmendedAndCorrectedOriginator(f);
    AmendedAndCorrectedParts(f);
    UrnFromParts(f, "iso" + "-" + "iec", "", "13818", ":-" + "1", "", "",
      (":amd:" + "2016" + ":v" + "3") + (":cor:" + "2017" + ":v" + "1"), "");
    AmendedAndCorrectedLiteral(IsoUrn.UrnText(f));
  }

  lemma AmendedAndCorrectedLiteral(r: Result<string>)
    requires r == Ok("urn:iso:std:" + ("iso" + "-" + "iec") + "" + ":" + "13818" + (":-" + "1") + "" + ""
      + ((":amd:" + "2016" + ":v" + "3") + (":cor:" + "2017" + ":v" + "1")) + "")
    ensures r == Ok("urn:iso:std:iso-iec:13818:-1:amd:2016:v3:cor:2017:v1")
  {
    var v := "urn:iso:std:iso-iec:13818:-1";
    AmendedAndCorrectedHead();
    assert v + "" == v;
    AmendedAndCorrectedSupplements();
    var u := "urn:iso:std:iso-iec:13818:-1:amd:2016:v3:cor:2017:v1";
    AmendedAndCorrectedWhole();
    assert u + "" == u;
  }

  lemma AmendedAndCorrectedHead()
    ensures "urn:iso:std:" + ("iso" + "-" + "iec") + "" + ":" + "13818" + (":-" + "1") == "urn:iso:std:iso-iec:13818:-1"
  {
    var w := "urn:iso:std:iso-iec:13818";
    assert "urn:iso:std:" + ("iso" + "-" + "iec") + "" + ":" + "13818" == w;
  }

  lemma AmendedAndCorrectedSupplements()
    ensures (":amd:" + "2016" + ":v" + "3") + (":cor:" + "2017" + ":v" + "1") == ":amd:2016:v3:cor:2017:v1"
  {
    assert ":amd:" + "2016" + ":v" + "3" == ":amd:2016:v3";
    assert ":cor:" + "2017" + ":v" + "1" == ":cor:2017:v1";
  }

  lemma AmendedAndCorrectedWhole()
    ensures "urn:iso:std:iso-iec:13818:-1" + ":amd:2016:v3:cor:2017:v1"
      == "urn:iso:std:iso-iec:13818:-1:amd:2016:v3:cor:2017:v1"
  {
  }

  /** A numbered supplement without a stage of its own reads "/Amd " or
      "/Cor ", the version, ":" and the number. */
  lemma NumberedAmendmentText(f: Fields, v: string, n: string)
    requires Amendment in f && AmendmentStage !in f && AmendmentVersion in f && f[AmendmentVersion] == Str(v)
    requires AmendmentNumber in f && f[AmendmentNumber] == Str(n)
    ensures IsoIdentifier.AmendmentText(f) == "/Amd " + v + ":" + n
  {
    assert Text(f, AmendmentVersion) == v && Text(f, AmendmentNumber) == n;
    assert IsoIdentifier.SupplementHead(f, AmendmentStage) == "/";
    assert IsoIdentifier.AmendmentText(f) == "/" + ("Amd " + v + ":" + n);
    SupplementAffix("/", "Amd ", v, n);
  }

  lemma SupplementAffix(slash: string, word: string, v: string, n: string)
    ensures slash + (word + v + ":" + n) == slash + word + v + ":" + n
  {
  }

  lemma NumberedCorrigendumText(f: Fields, v: string, n: string)
    requires Corrigendum in f && CorrigendumStage !in f && CorrigendumVersion in f && f[CorrigendumVersion] == Str(v)
    requires CorrigendumNumber in f && f[CorrigendumNumber] == Str(n)
    ensures IsoIdentifier.CorrigendumText(f) == "/Cor " + v + ":" + n
  {
    assert Text(f, CorrigendumVersion) == v && Text(f, CorrigendumNumber) == n;
    assert IsoIdentifier.SupplementHead(f, CorrigendumStage) == "/";
    assert IsoIdentifier.CorrigendumText(f) == "/" + ("Cor " + v + ":" + n);
    SupplementAffix("/", "Cor ", v, n);
  }

  /** The same fields keep their supplements in the human-readable form:
      "/Amd 3:2016/Cor 1:2017", version before number. */
  lemma AmendedAndCorrectedText(f: Fields)
    requires AmendedAndCorrectedFields(f)
    ensures IsoIdentifier.SupplementsText(f) == "/Amd 3:2016/Cor 1:2017"
  {
    NumberedAmendmentText(f, "3", "2016");
    NumberedCorrigendumText(f, "1", "2017");
    AmendedAndCorrectedTextLiteral(IsoIdentifier.SupplementsText(f));
  }

  lemma AmendedAndCorrectedTextLiteral(r: string)
    requires r == ("/Amd " + "3" + ":" + "2016") + ("/Cor " + "1" + ":" + "2017")
    ensures r == "/Amd 3:2016/Cor 1:2017"
  {
  }
}
