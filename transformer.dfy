/** The token rewrites of `Pubid::Iso::Transformer`
    (lib/pubid/iso/transformer.rb): each Parslet rule is a total function on
    the one token it matches, and `Apply` dispatches on the token's key as
    the rule patterns do. */
module Transformer {
  import opened RubyText
  import opened IdentifierFields
  import RussianRenderer

  // ---------------------------------------------------------------------
  // The rules
  // ---------------------------------------------------------------------

  /** `rule(edition: "Ed")`: a bare "Ed" means the first edition; any other
      edition token matches no rule and stays. */
  function EditionRule(edition: string): string {
    if edition == "Ed" then "1" else edition
  }

  /** The legacy stage spellings `convert_stage` rewrites. */
  function LegacyStage(code: string): Option<string> {
    if code == "D" then Some("DIS")
    else if code == "FD" then Some("FDIS")
    else if code == "Fpr" then Some("PRF")
    else if code == "pD" || code == "PD" then Some("CD")
    else None
  }

  /** `convert_stage`: a Russian stage word becomes its Latin key; otherwise
      a legacy spelling becomes the current one; anything else stays. */
  function ConvertStage(code: string): (r: string)
    ensures (exists i :: 0 <= i < |RussianRenderer.StageTable| && RussianRenderer.StageTable[i].1 == code) ==>
      (r, code) in RussianRenderer.StageTable
    ensures !(exists i :: 0 <= i < |RussianRenderer.StageTable| && RussianRenderer.StageTable[i].1 == code) ==>
      r == code || LegacyStage(code) == Some(r)
  {
    match KeyOf(RussianRenderer.StageTable, code)
    case Some(latin) => latin
    case None => LegacyStage(code).GetOr(code)
  }

  /** `convert_language`: the one-letter codes become two-letter ones. */
  function ConvertLanguage(code: string): (r: string)
    ensures |r| == 0 <==> |code| == 0
    ensures ',' in r ==> r == code
  {
    if code == "R" then "ru"
    else if code == "F" then "fr"
    else if code == "E" then "en"
    else if code == "A" then "ar"
    else code
  }

  function ConvertLanguages(codes: seq<string>): (r: seq<string>)
    ensures |r| == |codes|
    ensures forall k :: 0 <= k < |codes| ==> r[k] == ConvertLanguage(codes[k])
  {
    if codes == [] then [] else [ConvertLanguage(codes[0])] + ConvertLanguages(codes[1..])
  }

  /** `rule(language:)`: a "/"-joined list is split, each code converted,
      and the results joined with ","; a single code is converted. */
  function LanguageRule(token: string): (r: string)
    ensures '/' !in token ==> r == ConvertLanguage(token)
    ensures '/' in token && ',' !in token ==> Split(r, ',') == ConvertLanguages(Split(token, '/'))
  {
    if '/' in token then
      JoinedLanguagesSplit(token);
      Join(ConvertLanguages(Split(token, '/')), ",")
    else ConvertLanguage(token)
  }

  /** `rule(type:)`: a Russian type word becomes its Latin key; then the
      second Russian spelling of "Guide" and the upper-case "GUIDE", and the
      Cyrillic "ТС"/"ТО", are rewritten; anything else stays. */
  function TypeRule(t: string): (r: string)
    ensures (exists i :: 0 <= i < |RussianRenderer.TypeTable| && RussianRenderer.TypeTable[i].1 == t) ==>
      (r, t) in RussianRenderer.TypeTable
    ensures !(exists i :: 0 <= i < |RussianRenderer.TypeTable| && RussianRenderer.TypeTable[i].1 == t) ==>
      r == t || (r == "Guide" && (t == "GUIDE" || t == "Руководства")) || (r == "TS" && t == "ТС") || (r == "TR" && t == "ТО")
  {
    match KeyOf(RussianRenderer.TypeTable, t)
    case Some(latin) => latin
    case None =>
      if t == "GUIDE" || t == "Руководства" then "Guide"
      else if t == "ТС" then "TS"
      else if t == "ТО" then "TR"
      else t
  }

  /** `rule(copublisher:)`: Russian name to Latin code, the French "CEI" to
      "IEC", anything else stays. */
  function CopublisherRule(c: string): string {
    match KeyOf(RussianRenderer.PublisherTable, c)
    case Some(latin) => latin
    case None => if c == "CEI" then "IEC" else c
  }

  /** `rule(publisher:)`: Russian name to Latin code, anything else stays. */
  function PublisherRule(p: string): string {
    match KeyOf(RussianRenderer.PublisherTable, p)
    case Some(latin) => latin
    case None => p
  }

  /** `Transformer.new.apply(key => token)` for a simple token: the rule whose
      pattern names `key`, or no change when none does. */
  function Apply(key: Attr, token: string): string {
    match key
    case Edition => EditionRule(token)
    case Stage => ConvertStage(token)
    case AmendmentStage => ConvertStage(token)
    case CorrigendumStage => ConvertStage(token)
    case Language => LanguageRule(token)
    case Type => TypeRule(token)
    case Copublisher => CopublisherRule(token)
    case Publisher => PublisherRule(token)
    case _ => token
  }

  // ---------------------------------------------------------------------
  // What the rules promise
  // ---------------------------------------------------------------------

  /** "Ed" with no number is edition 1; a numbered edition is kept. */
  lemma EditionRuleSpec(edition: string)
    ensures Apply(Edition, "Ed") == "1"
    ensures edition != "Ed" ==> Apply(Edition, edition) == edition
  {
  }

  /** The legacy stage spellings and their replacements; a code that is
      neither a Russian stage word nor a legacy spelling is returned
      unchanged. */
  lemma ConvertStageLegacy(code: string)
    ensures ConvertStage("D") == "DIS" && ConvertStage("FD") == "FDIS"
    ensures ConvertStage("Fpr") == "PRF"
    ensures ConvertStage("pD") == "CD" && ConvertStage("PD") == "CD"
    ensures KeyOf(RussianRenderer.StageTable, code).None? && LegacyStage(code).None? ==>
      ConvertStage(code) == code
  {
    RussianRenderer.LatinIsNoRussianWord("D");
    RussianRenderer.LatinIsNoRussianWord("FD");
    RussianRenderer.LatinIsNoRussianWord("Fpr");
    RussianRenderer.LatinIsNoRussianWord("pD");
    RussianRenderer.LatinIsNoRussianWord("PD");
  }

  /** Every Russian stage word is mapped back to the Latin stage it
      translates, before any legacy case is tried. */
  lemma ConvertStageUndoesRussian(i: nat)
    requires i < |RussianRenderer.StageTable|
    ensures ConvertStage(RussianRenderer.StageTable[i].1) == RussianRenderer.StageTable[i].0
  {
    RussianRenderer.TablesOneToOne();
    KeyOfEntry(RussianRenderer.StageTable, i);
  }

  /** Because the Russian lookup comes first, "ПД" becomes the Latin key "PD"
      and not "CD", so stage conversion is not idempotent: converting its
      result again gives "CD". */
  lemma ConvertStageRussianPD()
    ensures ConvertStage("ПД") == "PD"
    ensures ConvertStage(ConvertStage("ПД")) == "CD"
  {
    ConvertStageUndoesRussian(5);
    RussianRenderer.LatinIsNoRussianWord("PD");
  }

  /** The base stage, the amendment stage and the corrigendum stage go
      through the same conversion. */
  lemma SupplementStagesConvertAlike(token: string)
    ensures Apply(Stage, token) == ConvertStage(token)
    ensures Apply(AmendmentStage, token) == Apply(Stage, token)
    ensures Apply(CorrigendumStage, token) == Apply(Stage, token)
  {
  }

  /** The one-letter language codes, and idempotence: a converted code is
      left alone by a second conversion. */
  lemma ConvertLanguageSpec(code: string)
    ensures ConvertLanguage("R") == "ru" && ConvertLanguage("F") == "fr"
    ensures ConvertLanguage("E") == "en" && ConvertLanguage("A") == "ar"
    ensures code != "R" && code != "F" && code != "E" && code != "A" ==> ConvertLanguage(code) == code
    ensures ConvertLanguage(ConvertLanguage(code)) == ConvertLanguage(code)
  {
  }

  /** A "/"-joined language token: splitting the ","-joined conversion
      gives back each segment of the token, converted on its own, in order. */
  lemma JoinedLanguagesSplit(token: string)
    ensures ',' !in token ==>
      Split(Join(ConvertLanguages(Split(token, '/')), ","), ',') == ConvertLanguages(Split(token, '/'))
  {
    if ',' in token {
      return;
    }
    var segments := Split(token, '/');
    var converted := ConvertLanguages(segments);
    if segments == [] {
      assert Join(converted, ",") == "";
      assert SplitFields("", ',') == [""];
    } else {
      forall k | 0 <= k < |segments| ensures ',' !in converted[k] {
        assert ',' !in segments[k] by {
          if ',' in segments[k] {
            SegmentCharInToken(token, '/', k, ',');
          }
        }
      }
      SplitOfJoin(converted, ',');
    }
  }

  /** A character of a segment occurs in the string that was split. */
  lemma SegmentCharInToken(s: string, c: char, k: nat, x: char)
    requires k < |Split(s, c)| && x in Split(s, c)[k]
    ensures x in s
  {
    var fields := SplitFields(s, c);
    assert Split(s, c)[k] == fields[k];
    FieldCharInString(s, c, k, x);
  }

  lemma {:induction false} FieldCharInString(s: string, c: char, k: nat, x: char)
    requires k < |SplitFields(s, c)| && x in SplitFields(s, c)[k]
    ensures x in s
    decreases |s|
  {
    if s != [] {
      var rest := SplitFields(s[1..], c);
      if s[0] == c {
        if k > 0 {
          FieldCharInString(s[1..], c, k - 1, x);
        }
      } else if k == 0 {
        if x != s[0] {
          assert x in rest[0];
          FieldCharInString(s[1..], c, 0, x);
        }
      } else {
        assert SplitFields(s, c)[k] == rest[k];
        FieldCharInString(s[1..], c, k, x);
      }
    }
  }

  /** So a "/"-joined token keeps its number of language segments. */
  lemma LanguageRuleSegmentCount(token: string)
    requires '/' in token && ',' !in token
    ensures |Split(LanguageRule(token), ',')| == |Split(token, '/')|
  {
  }

  /** Type normalisation: Russian words first, then "GUIDE"/"Руководства"
      to "Guide", "ТС" to "TS", "ТО" to "TR"; anything else is unchanged. */
  lemma TypeRuleSpec(t: string)
    ensures TypeRule("Руководство") == "Guide" && TypeRule("ИСП") == "ISP"
    ensures TypeRule("GUIDE") == "Guide" && TypeRule("Руководства") == "Guide"
    ensures TypeRule("ТС") == "TS" && TypeRule("ТО") == "TR"
    ensures KeyOf(RussianRenderer.TypeTable, t).None? && t != "GUIDE" && t != "Руководства" ==>
      TypeRule(t) == t
  {
    RussianRenderer.TablesOneToOne();
    KeyOfEntry(RussianRenderer.TypeTable, 0);
    KeyOfEntry(RussianRenderer.TypeTable, 1);
    KeyOfEntry(RussianRenderer.TypeTable, 2);
    KeyOfEntry(RussianRenderer.TypeTable, 3);
  }

  /** Every Russian type word is mapped back to the Latin type it
      translates. */
  lemma TypeRuleUndoesRussian(i: nat)
    requires i < |RussianRenderer.TypeTable|
    ensures TypeRule(RussianRenderer.TypeTable[i].1) == RussianRenderer.TypeTable[i].0
  {
    RussianRenderer.TablesOneToOne();
    KeyOfEntry(RussianRenderer.TypeTable, i);
  }

  /** A normalised type is normalised again to itself. */
  lemma TypeRuleIdempotent(t: string)
    ensures TypeRule(TypeRule(t)) == TypeRule(t)
  {
    var r := TypeRule(t);
    var found := KeyOf(RussianRenderer.TypeTable, t);
    if found.Some? {
      RussianRenderer.TableScripts();
      RussianRenderer.LatinIsNoRussianWord(r);
    } else if r != t {
      RussianRenderer.LatinIsNoRussianWord(r);
    }
  }

  /** Copublisher normalisation: Russian names to Latin codes, "CEI" to
      "IEC", anything else unchanged. */
  lemma CopublisherRuleSpec(c: string)
    ensures CopublisherRule("CEI") == "IEC"
    ensures CopublisherRule("ИСО") == "ISO" && CopublisherRule("МЭК") == "IEC"
    ensures KeyOf(RussianRenderer.PublisherTable, c).None? && c != "CEI" ==> CopublisherRule(c) == c
  {
  }

  /** Publisher normalisation: Russian names to Latin codes, anything else
      (the French "CEI" included) unchanged. */
  lemma PublisherRuleSpec(p: string)
    ensures PublisherRule("ИСО") == "ISO" && PublisherRule("МЭК") == "IEC"
    ensures PublisherRule("CEI") == "CEI"
    ensures KeyOf(RussianRenderer.PublisherTable, p).None? ==> PublisherRule(p) == p
  {
  }

  /** The transformer reads back what the Russian renderer writes: the
      translation of a publisher, copublisher, stage or type normalises to
      the original Latin code. */
  lemma RussianRoundTrip(publisher: string, stage: nat, typ: nat)
    requires publisher == "ISO" || publisher == "IEC"
    requires stage < |RussianRenderer.StageTable| && typ < |RussianRenderer.TypeTable|
    ensures PublisherRule(RussianRenderer.RenderPublisher(publisher).value) == publisher
    ensures CopublisherRule(RussianRenderer.RenderPublisher(publisher).value) == publisher
    ensures ConvertStage(ValueOf(RussianRenderer.StageTable, RussianRenderer.StageTable[stage].0).value)
      == RussianRenderer.StageTable[stage].0
    ensures TypeRule(ValueOf(RussianRenderer.TypeTable, RussianRenderer.TypeTable[typ].0).value)
      == RussianRenderer.TypeTable[typ].0
  {
    RussianRenderer.TablesOneToOne();
    ValueOfEntry(RussianRenderer.StageTable, stage);
    ValueOfEntry(RussianRenderer.TypeTable, typ);
    ConvertStageUndoesRussian(stage);
    TypeRuleUndoesRussian(typ);
  }

  /** Only the eight keys that have rules are rewritten. */
  lemma ApplyTouchesOnlyRuleKeys(key: Attr, token: string)
    requires key !in {Edition, Stage, AmendmentStage, CorrigendumStage, Language, Type, Copublisher, Publisher}
    ensures Apply(key, token) == token
  {
  }
}
