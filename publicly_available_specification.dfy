/** `Pubid::Iso::Identifier::PubliclyAvailableSpecification`
    (lib/pubid/iso/identifier/publicly_available_specification.rb): the
    document type and the one typed stage, DPAS, with its harmonized codes. */
module PubliclyAvailableSpecification {
  import IsoUrn

  /** A typed-stage entry: abbreviation, document type (a Symbol, written
      without its colon), name and harmonized stage codes. */
  datatype TypedStage = TypedStage(abbr: string, docType: string, name: string, harmonizedStages: seq<string>)

  /** `self.type`, which instances delegate to. */
  const DocType: string := "pas"

  /** `TYPED_STAGES`. */
  const TypedStages: seq<(string, TypedStage)> :=
    [("dpas", TypedStage("DPAS", "pas", "Publicly Available Specification Draft",
       ["40.00", "40.20", "40.60", "40.92", "40.93", "50.00", "50.20", "50.60", "50.92"]))]

  /** The one entry, DPAS, is a draft of the class's own type. */
  lemma DpasEntry()
    ensures |TypedStages| == 1 && TypedStages[0].0 == "dpas"
    ensures TypedStages[0].1.abbr == "DPAS" && TypedStages[0].1.docType == DocType
    ensures forall i :: 0 <= i < |TypedStages| ==> TypedStages[i].1.docType == DocType
  {
  }

  /** The DPAS codes as numbers. */
  const DpasValues: seq<IsoUrn.StageCode> :=
    [IsoUrn.StageCode(40, 0), IsoUrn.StageCode(40, 20), IsoUrn.StageCode(40, 60),
     IsoUrn.StageCode(40, 92), IsoUrn.StageCode(40, 93), IsoUrn.StageCode(50, 0),
     IsoUrn.StageCode(50, 20), IsoUrn.StageCode(50, 60), IsoUrn.StageCode(50, 92)]

  /** Each DPAS text is a "DD.DD" code reading as the matching number. */
  lemma DpasTextsRead(i: nat)
    requires i < 9
    ensures |TypedStages[0].1.harmonizedStages| == 9
    ensures IsoUrn.IsCodeText(TypedStages[0].1.harmonizedStages[i])
    ensures IsoUrn.CodeValue(TypedStages[0].1.harmonizedStages[i]) == DpasValues[i]
  {
  }

  /** Every DPAS code is a well-formed "DD.DD" code that prints back as
      itself, with major stage 40 (enquiry) or 50 (approval), and the codes
      strictly ascend. */
  lemma DpasCodes()
    ensures var codes := TypedStages[0].1.harmonizedStages;
      |codes| == 9 &&
      (forall i :: 0 <= i < |codes| ==> IsoUrn.IsCodeText(codes[i])) &&
      (forall i :: 0 <= i < |codes| ==> IsoUrn.CodeText(IsoUrn.CodeValue(codes[i])) == codes[i]) &&
      (forall i :: 0 <= i < |codes| ==> IsoUrn.CodeValue(codes[i]).major in {40, 50}) &&
      (forall i, j :: 0 <= i < j < |codes| ==> Before(IsoUrn.CodeValue(codes[i]), IsoUrn.CodeValue(codes[j])))
  {
    var codes := TypedStages[0].1.harmonizedStages;
    DpasTextsRead(0);
    forall i | 0 <= i < 9
      ensures IsoUrn.IsCodeText(codes[i]) && IsoUrn.CodeValue(codes[i]) == DpasValues[i]
      ensures IsoUrn.CodeText(DpasValues[i]) == codes[i]
    {
      DpasTextsRead(i);
      PrintsBack(codes[i]);
    }
    DpasValuesAscend();
  }

  lemma DpasValuesAscend()
    ensures forall i :: 0 <= i < |DpasValues| ==> DpasValues[i].major in {40, 50}
    ensures forall i, j :: 0 <= i < j < |DpasValues| ==> Before(DpasValues[i], DpasValues[j])
  {
  }

  /** A code text with an in-range value prints back as itself. */
  lemma PrintsBack(s: string)
    requires IsoUrn.IsCodeText(s)
    ensures IsoUrn.CodeText(IsoUrn.CodeValue(s)) == s
  {
    var v := IsoUrn.CodeValue(s);
    assert IsoUrn.InRange(v);
    CodeTextUnique(IsoUrn.CodeText(v), s);
  }

  /** Stage codes in harmonized order, strictly. */
  predicate Before(a: IsoUrn.StageCode, b: IsoUrn.StageCode) {
    a.major < b.major || (a.major == b.major && a.minor < b.minor)
  }

  /** Two code texts that read as the same code are the same text. */
  lemma CodeTextUnique(s: string, t: string)
    requires IsoUrn.IsCodeText(s) && IsoUrn.IsCodeText(t)
    requires IsoUrn.CodeValue(s) == IsoUrn.CodeValue(t)
    ensures s == t
  {
    assert s[0] == t[0] && s[1] == t[1] && s[3] == t[3] && s[4] == t[4];
  }
}
