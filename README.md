# pubid-iso in Dafny

A Dafny model of the core of `pubid-iso`, the Ruby library that parses ISO
publication identifiers such as "ISO/IEC FDIS 7816-6" and renders them again
as text, as a URN ("urn:iso:std:iso-iec:7816:-6:stage-50.00") and in the
Russian and directive forms.

The model covers these parts of the library:

- the parse-tree transformer, which normalises legacy, French and Russian
  tokens;
- `Pubid::Iso::Identifier`: option coercion, the merging of repeated parser
  keys into arrays, the human-readable `to_s` and the hand-off to `Urn`;
- the two URN builders: `Pubid::Iso::Urn`, with its stage table, and the
  older `PubidIso::URN`;
- `Pubid::Iso::Supplement`, with its wildcard equality and its two
  renderings;
- the renderers `Base`, `Urn`, `Supplement`, `Russian` and `Dir`;
- the publicly-available-specification identifier class and its DPAS
  typed stage.

Modules follow the Ruby files. `RubyText`, `Template` and `IdentifierFields`
hold the shared Ruby semantics:

- `String#split` drops trailing empty fields;
- `Array#sort` compares byte-wise;
- `Hash#key` returns the first matching key;
- an Array interpolates as its `inspect` form;
- `"%{slot}" % params` formats with a "" default;
- an object's instance variables are a `map<Attr, Value>`.

`Identifier`, `Urn` and the Russian renderer's parameter hash are classes,
because the source mutates them in place:

- `originator` wraps `@copublisher` in an Array;
- the Russian `render_identifier` blanks `params[:type]`.

The rest is pure functions.

A raised exception is a `Failure` inside a `Result`:

- `NoMethodError` on nil or on a value without the method, or `TypeError` (an Array publisher given to `String#+`);
- a `STAGES` lookup that yields nil;
- `ArgumentError` for a wrong arity.

Stage codes are integer pairs printed as "NN.NN", which stands in for
`sprintf('%05.2f', …)` on a Float.

Four behaviours of the code are easy to misread:

- The transformer does not convert "FPD". Only the Russian "ФПД" maps
  to "FPD".
- A Russian "ПД" becomes "PD", not "CD". `convert_stage` returns the
  `STAGE` key before its own "PD" case (`Transformer.ConvertStageRussianPD`).
- A key repeated three or more times in the parser output nests arrays
  (`[c, [b, a]]`) rather than flattening them (`IsoIdentifier.NestShapes`).
- The supplement renderer cannot render through `render`: it raises
  `ArgumentError` (see Findings).

## Model

| member | source | states |
|---|---|---|
| Transformer.EditionRuleSpec | lib/pubid/iso/transformer.rb:3-5 | An edition "Ed" becomes "1"; every other edition token is kept. |
| Transformer.SupplementStagesConvertAlike | lib/pubid/iso/transformer.rb:7-17 | Stage, amendment stage and corrigendum stage tokens all go through the same `convert_stage`. |
| Transformer.ConvertStage | lib/pubid/iso/transformer.rb:63-79 | A Russian stage word becomes a Latin key it translates. Any other token comes back unchanged or as its legacy replacement. |
| Transformer.ConvertStageLegacy | lib/pubid/iso/transformer.rb:63-79 | D→DIS, FD→FDIS, Fpr→PRF, pD and PD→CD. A token that is neither Russian nor legacy is returned unchanged. |
| Transformer.ConvertStageUndoesRussian | lib/pubid/iso/transformer.rb:63-65 | Every Russian stage word converts back to its Latin key. |
| Transformer.ConvertStageRussianPD | lib/pubid/iso/transformer.rb:63-75 | "ПД" converts to "PD", not "CD". A second conversion would give "CD", so the conversion is not idempotent. |
| Transformer.ConvertLanguage | lib/pubid/iso/transformer.rb:81-94 | The result is empty exactly when the code is. A code containing "," is kept. |
| Transformer.ConvertLanguageSpec | lib/pubid/iso/transformer.rb:81-94 | R→ru, F→fr, E→en, A→ar. Other codes are kept. Converting twice equals converting once. |
| Transformer.LanguageRule | lib/pubid/iso/transformer.rb:19-27 | A single code is converted on its own. A "/"-separated list becomes a ","-separated list that splits back into each part converted, in order. |
| Transformer.LanguageRuleSegmentCount | lib/pubid/iso/transformer.rb:19-27 | Converting a language list keeps the number of languages. |
| Transformer.TypeRule | lib/pubid/iso/transformer.rb:29-44 | A Russian type word becomes a Latin key it translates. Any other type is kept, except GUIDE and "Руководства" (to Guide), ТС (to TS) and ТО (to TR). |
| Transformer.TypeRuleSpec | lib/pubid/iso/transformer.rb:29-44 | Russian type words map back to their key. GUIDE and "Руководства" map to Guide, ТС to TS and ТО to TR. Other types are kept. |
| Transformer.TypeRuleUndoesRussian | lib/pubid/iso/transformer.rb:29-31 | Every Russian type word converts back to the key it renders from. |
| Transformer.TypeRuleIdempotent | lib/pubid/iso/transformer.rb:29-44 | Converting a type twice equals converting it once. |
| Transformer.CopublisherRuleSpec | lib/pubid/iso/transformer.rb:46-56 | ИСО→ISO, МЭК→IEC and the French CEI→IEC. Other copublishers are kept. |
| Transformer.PublisherRuleSpec | lib/pubid/iso/transformer.rb:58-61 | ИСО→ISO and МЭК→IEC. CEI is not converted for a publisher. Latin publishers are kept. |
| Transformer.RussianRoundTrip | lib/pubid/iso/transformer.rb:29-79 | Rendering a publisher, stage or type in Russian and transforming it back gives the original. |
| Transformer.ApplyTouchesOnlyRuleKeys | lib/pubid/iso/transformer.rb:3-61 | Keys without a rule pass through the transformer unchanged. |
| RussianRenderer.TablesOneToOne | lib/pubid/iso/renderer/russian.rb:3-19 | The publisher, stage and type tables have unique keys and unique values, so `Hash#key` inverts them. |
| RussianRenderer.LatinIsNoRussianWord | lib/pubid/iso/renderer/russian.rb:3-19 | A Latin-only token is never a Russian word of any table, so the transformer leaves it to its own cases. |
| RussianRenderer.RenderPublisher | lib/pubid/iso/renderer/russian.rb:30-32 | The translation exists only for ISO and IEC, and gives ИСО and МЭК. |
| RussianRenderer.RenderCopublisher | lib/pubid/iso/renderer/russian.rb:34-43 | A single copublisher renders as "/" and its translation, or "/" alone when unknown. An Array is sorted and fails if any name has no translation. |
| RussianRenderer.CopublisherOrderIndependent | lib/pubid/iso/renderer/russian.rb:36-39 | Copublisher arrays with the same elements render alike, whatever their order. |
| RussianRenderer.UnknownCopublisher | lib/pubid/iso/renderer/russian.rb:34-43 | An untranslatable name raises in an Array (`gsub` on nil) and renders "/" alone as a single value. |
| RussianRenderer.RenderStage | lib/pubid/iso/renderer/russian.rb:45-51 | The Russian stage word follows " " with a copublisher, and "/" without one. |
| RussianRenderer.DotSpaces | lib/pubid/iso/renderer/russian.rb:53-59 | Amendment and corrigendum texts keep their length and every non-space character, and contain no space. |
| RussianRenderer.ParamTable.RenderIdentifier | lib/pubid/iso/renderer/russian.rb:21-28 | For type " Guide" the type entry is blanked in place and "Руководство " is put in front. Otherwise the table is unchanged and the default rendering is returned. |
| RussianRenderer.GuideFrontedOnce | lib/pubid/iso/renderer/russian.rb:21-28 | A guide renders as the guide word followed by the rendering of the same parameters without a type. |
| RussianRenderer.RenderTwice | lib/pubid/iso/renderer/russian.rb:21-28 | Because of the in-place blanking, a second rendering of the same hash drops the guide word. |
| IsoUrn.StageLookup | lib/pubid/iso/urn.rb:10-18 | A name has a code exactly when it is a key of `STAGES`, and the code returned is that key's. |
| IsoUrn.CodeText | lib/pubid/iso/urn.rb:36-38 | An in-range code prints as "DD.DD" and reads back as itself. |
| IsoUrn.StagesWellFormed | lib/pubid/iso/urn.rb:10-18 | Every code is in range, the table ascends in harmonized order, and its names are distinct. |
| IsoUrn.StageCodesDistinct | lib/pubid/iso/urn.rb:10-18 | Two stages print the same code exactly when they are FDIS and PRF. |
| IsoUrn.AmendmentSegment | lib/pubid/iso/urn.rb:79-86 | Empty exactly without an amendment. Otherwise ":amd:", then the number, ":v" and the version, or "v" and the version when there is no number. |
| IsoUrn.CorrigendumSegment | lib/pubid/iso/urn.rb:87-94 | Empty exactly without a corrigendum. Otherwise ":cor:", then the number, ":v" and the version, or "v" and the version when there is no number. |
| IsoUrn.AmendmentSegmentReadsBack | lib/pubid/iso/urn.rb:82-83 | After ":amd:", a numbered amendment splits at ":" into its number and "v" and its version. |
| IsoUrn.CorrigendumSegmentReadsBack | lib/pubid/iso/urn.rb:89-90 | After ":cor:", a numbered corrigendum splits at ":" into its number and "v" and its version. |
| IsoUrn.AmendmentBeforeCorrigendum | lib/pubid/iso/urn.rb:79-97 | The supplement text holds the amendment first and then the corrigendum. |
| IsoUrn.Urn.Originator | lib/pubid/iso/urn.rb:48-60 | Returns the originator and wraps a lone copublisher in an Array in place. Nothing else changes. |
| IsoUrn.Urn.ToS | lib/pubid/iso/urn.rb:24-30 | Returns the URN of the table before the call, and leaves the table with its copublisher wrapped. |
| IsoUrn.UrnText | lib/pubid/iso/urn.rb:24-77 | `to_s` fails exactly when the originator, the type or the stage fails, and reports the first failure in that order. |
| IsoUrn.UrnLayout | lib/pubid/iso/urn.rb:24-30 | A URN opens with "urn:iso:std:" and lays out originator, type, ":" and number, part, stage, edition, supplement and language in that order. |
| IsoUrn.UnknownStageFails | lib/pubid/iso/urn.rb:36-38 | A stage outside `STAGES` makes the URN fail with that stage's name. |
| IsoUrn.UrnReadsOnlyRendered | lib/pubid/iso/urn.rb:24-103 | Two tables that agree on every rendered attribute give the same URN. |
| IsoUrn.UrnOmitsYear | lib/pubid/iso/urn.rb:24-30 | The year never changes the URN. |
| IsoUrn.IterationNeedsStage | lib/pubid/iso/urn.rb:36-46 | Without any stage, the iteration never changes the URN. |
| IsoUrn.IterationFollowsStage | lib/pubid/iso/urn.rb:36-38 | With a known stage, the stage part is ":stage-", the code, ".v" and the iteration. |
| IsoUrn.StagePrecedence | lib/pubid/iso/urn.rb:40-46 | The document stage wins over the amendment stage, which wins over the corrigendum stage. |
| IsoUrn.StageSegmentCarriesCode | lib/pubid/iso/urn.rb:36-46 | A rendered stage part carries a "DD.DD" code that reads back as the table's code for the stage. |
| IsoUrn.CopublisherOrderIndependent | lib/pubid/iso/urn.rb:48-60 | The URN does not depend on the order of the copublishers. |
| IsoUrn.UrnWrapInvariant | lib/pubid/iso/urn.rb:48-53 | Wrapping the copublisher in an Array, as `originator` does, does not change the URN. |
| IsoUrn.OriginatorIsLowerCase | lib/pubid/iso/urn.rb:48-60 | The originator has no upper-case ASCII letter. |
| IsoUrn.LowerSegments | lib/pubid/iso/urn.rb:54-56 | Each copublisher segment is lower-cased and has "/" turned into "-". |
| LegacyUrn.SubstageReadsBack | lib/pubid_iso/urn.rb:21-23 | The stage part ends with "." and two digits that read as the substage. |
| LegacyUrn.FieldsOf | lib/pubid_iso/urn.rb:5-7 | The legacy identifier's accessors as an attribute table: present exactly where the accessor is non-nil. |
| LegacyUrn.UrnText | lib/pubid_iso/urn.rb:9-44 | `to_s` fails exactly without a publisher, or with a stage but no substage, in that order. A rendering is "urn:iso:std:", the originator, the type, ":" and the number, then the part, stage and edition segments. |
| LegacyUrn.AgreesWithCurrentUrn | lib/pubid_iso/urn.rb:9-15 | Without a stage, the legacy URN equals the current `Urn` of the same attributes. |
| LegacyUrn.AgreesOnStage | lib/pubid_iso/urn.rb:9-23 | With the stage and substage of a table entry, the legacy URN equals the current URN of that named stage. |
| LegacyUrn.StageSegmentOfCode | lib/pubid_iso/urn.rb:21-23 | The stage part is ":stage-", the stage, "." and the two-digit substage. |
| IsoIdentifier.Coerce | lib/pubid/iso/identifier.rb:10-12 | An Array is kept as it is. Any other value becomes its `to_s`: nil becomes "" and an Integer its decimal text. |
| IsoIdentifier.UncoercedAll | lib/pubid/iso/identifier.rb:10-12 | Every attribute table is the coercion of some option hash. |
| IsoIdentifier.Identifier.constructor | lib/pubid/iso/identifier.rb:10-12 | `new(**opts)` holds the coerced options. |
| IsoIdentifier.Identifier.Parse | lib/pubid/iso/identifier.rb:19-46 | The parsed identifier holds the transformed tree. A sequence of trees is merged key by key. |
| IsoIdentifier.MergeRepeated | lib/pubid/iso/identifier.rb:23-34 | The `inject` loop computes the same table as the recursive merge. |
| IsoIdentifier.MergePairsAt | lib/pubid/iso/identifier.rb:28-30 | After one tree, a key holds its last value there, paired with the previous value if the key was already present. Other keys are untouched. |
| IsoIdentifier.MergeAllAt | lib/pubid/iso/identifier.rb:23-34 | A key is present exactly when some tree has it. Its value nests all its values, newest first. |
| IsoIdentifier.NestShapes | lib/pubid/iso/identifier.rb:29 | One value stays a String, two become `[b, a]`, three become `[c, [b, a]]`. |
| IsoIdentifier.Identifier.Urn | lib/pubid/iso/identifier.rb:14-17 | `urn` hands a fresh `Pubid::Iso::Urn`, taken as the class `URN` names, the identifier's whole instance-variable table. |
| IsoIdentifier.Identifier.ToS | lib/pubid/iso/identifier.rb:48-50 | Returns the rendering and leaves the copublisher wrapped in an Array. |
| IsoIdentifier.Render | lib/pubid/iso/identifier.rb:48-61 | `to_s` fails only when there is a copublisher and the publisher is nil or an Array. Otherwise it is the originator followed by the rest. |
| IsoIdentifier.OriginatorWithoutCopublisher | lib/pubid/iso/identifier.rb:58-60 | Without a copublisher the originator is exactly the publisher. |
| IsoIdentifier.OriginatorSplits | lib/pubid/iso/identifier.rb:52-61 | Split at "/", the originator gives the publisher followed by the sorted copublishers. |
| IsoIdentifier.SegmentsAreJoin | lib/pubid/iso/identifier.rb:55-57 | Prefixing each copublisher with "/" and joining equals joining publisher and copublishers with "/". |
| IsoIdentifier.CopublisherOrderIndependent | lib/pubid/iso/identifier.rb:52-61 | The rendering does not depend on the order of the copublishers. |
| IsoIdentifier.RenderWrapInvariant | lib/pubid/iso/identifier.rb:52-54 | Wrapping the copublisher in an Array does not change the rendering. |
| IsoIdentifier.NilCopublisherIsPresent | lib/pubid/iso/identifier.rb:10-11 | A nil copublisher is coerced to "", which is truthy. The originator gains a trailing "/" and type and stage follow a space. |
| IsoIdentifier.AmendmentBeforeCorrigendum | lib/pubid/iso/identifier.rb:87-107 | The supplements text is the amendment text and then the corrigendum text, which opens with "/". |
| IsoIdentifier.AmendmentText | lib/pubid/iso/identifier.rb:89-96 | Empty exactly without an amendment. Otherwise the stage head and "Amd ", then the version, followed by ":" and the number when there is one. |
| IsoIdentifier.CorrigendumText | lib/pubid/iso/identifier.rb:97-104 | Empty exactly without a corrigendum. Otherwise the stage head and "Cor ", then the version, followed by ":" and the number when there is one. |
| IsoIdentifier.AmendmentTextReadsBack | lib/pubid/iso/identifier.rb:91-92 | After "Amd ", a numbered amendment splits at ":" into its version and its number. |
| IsoIdentifier.CorrigendumTextReadsBack | lib/pubid/iso/identifier.rb:99-100 | After "Cor ", a numbered corrigendum splits at ":" into its version and its number. |
| IsoIdentifier.LanguageIsSuffix | lib/pubid/iso/identifier.rb:109-113 | When a language is present, the rendering ends with the language in parentheses. |
| IsoIdentifier.RenderReadsOnlyRendered | lib/pubid/iso/identifier.rb:48-50 | The substage and the supplements list never change the rendering. |
| IsoSupplement.EqualReflexive | lib/pubid/iso/supplement.rb:9-11 | Every supplement equals itself. |
| IsoSupplement.Equal | lib/pubid/iso/supplement.rb:9-11 | Equal supplements share the version. A number or stage on the receiver's side must match; without either, the version alone decides. |
| IsoSupplement.EqualAntisymmetric | lib/pubid/iso/supplement.rb:9-11 | Equality both ways holds exactly for identical supplements. |
| IsoSupplement.EqualTransitive | lib/pubid/iso/supplement.rb:9-11 | The wildcard equality is transitive. |
| IsoSupplement.EqualNotSymmetric | lib/pubid/iso/supplement.rb:9-11 | A supplement without a number equals one with a number, but not the other way round. |
| IsoSupplement.EqualWhenSpecific | lib/pubid/iso/supplement.rb:9-11 | With both a number and a stage, a supplement equals only itself. |
| IsoSupplement.PubidStage | lib/pubid/iso/supplement.rb:13-15 | The stage, or "" without one. |
| IsoSupplement.PubidNumber | lib/pubid/iso/supplement.rb:17-23 | The version alone without a number. Otherwise the version, ":" and the number. |
| IsoSupplement.PubidNumberSplits | lib/pubid/iso/supplement.rb:17-23 | "version:number" splits at ":" back into version and number. |
| IsoSupplement.UrnStage | lib/pubid/iso/supplement.rb:25-27 | "" without a stage. A stage in `Urn::STAGES` gives ":stage-" and its code. A stage outside the table fails. |
| IsoSupplement.UrnStageAsUrnClass | lib/pubid/iso/supplement.rb:25-27 | The supplement's URN stage is the stage part the `Urn` class prints for that stage without an iteration. |
| IsoSupplement.UrnNumber | lib/pubid/iso/supplement.rb:29-35 | ":", then the number, ":v" and the version. Without a number: the version, then ":v1". |
| IsoSupplement.PubidNumberAsIdentifier | lib/pubid/iso/supplement.rb:17-23 | The number text is what `Identifier#supplements` prints after "Amd ", with or without a number. |
| IsoSupplement.UrnNumberAsUrnClass | lib/pubid/iso/supplement.rb:29-35 | With a number, the URN number is what `Urn#supplement` prints after ":amd". Without one the two texts differ. |
| IsoSupplement.UrnNumberWithoutNumber | lib/pubid/iso/supplement.rb:29-35 | Without a number, the URN number reads as number = version and version = 1. |
| IsoSupplement.MutuallyEqualRenderAlike | lib/pubid/iso/supplement.rb:9-35 | Supplements equal both ways render alike in both forms. |
| PubliclyAvailableSpecification.DpasEntry | lib/pubid/iso/identifier/publicly_available_specification.rb:6-17 | The single typed stage is DPAS, of the class's own type "pas". |
| PubliclyAvailableSpecification.DpasCodes | lib/pubid/iso/identifier/publicly_available_specification.rb:11 | The DPAS codes are well-formed "DD.DD" codes that print back as themselves. They lie in stages 40 and 50 and strictly ascend. |
| BaseRenderer.RenderOptions | lib/pubid/iso/renderer/base.rb:6-8 | `with_edition` defaults to true. Every other keyword is passed on unchanged. |
| BaseRenderer.EditionShownByDefault | lib/pubid/iso/renderer/base.rb:6-8 | The edition is shown unless the caller passes `with_edition` as false or nil. |
| BaseRenderer.TailInOrder | lib/pubid/iso/renderer/base.rb:16-19 | The two templates lay out type and stage, then part, iteration, year, edition, amendments, corrigendums and language. |
| BaseRenderer.OnlyTemplateSlots | lib/pubid/iso/renderer/base.rb:16-19 | Parameters outside the templates' slots never change the rendering. |
| BaseRenderer.RenderIdentifier | lib/pubid/iso/renderer/base.rb:16-19 | The base rendering of type and stage, then part, iteration, year, edition, amendments, corrigendums and language, in that order. |
| BaseRenderer.RenderStage | lib/pubid/iso/renderer/base.rb:29-35 | " " or "/" by the copublisher, then the stage's abbreviation and nothing else. |
| BaseRenderer.RenderType | lib/pubid/iso/renderer/base.rb:21-27 | The type follows " " with a copublisher, and "/" without one. |
| BaseRenderer.StageByAbbreviation | lib/pubid/iso/renderer/base.rb:29-35 | A stage renders by its abbreviation alone. |
| BaseRenderer.RenderIteration | lib/pubid/iso/renderer/base.rb:41-43 | "." then the iteration. |
| BaseRenderer.RenderEdition | lib/pubid/iso/renderer/base.rb:37-39 | " ED" and the edition, present exactly when `with_edition` is truthy. |
| BaseRenderer.AgreesWithIdentifier | lib/pubid/iso/renderer/base.rb:21-43 | With default options, the type, stage, edition and iteration pieces equal those of `Identifier#to_s`. |
| UrnRenderer.SameStageTable | lib/pubid/iso/renderer/urn.rb:3-11 | The renderer's `STAGES` is the `Urn` class's table. |
| UrnRenderer.ResolvedOptions | lib/pubid/iso/renderer/urn.rb:20-31 | `with_edition` and `with_date` default to true and `with_language_code` to :iso. Other keywords pass unchanged. |
| UrnRenderer.Render | lib/pubid/iso/renderer/urn.rb:20-35 | Amendments and corrigendums go to the supplement rendering. Everything else is the base identifier followed by the language. |
| UrnRenderer.DefaultsForwarded | lib/pubid/iso/renderer/urn.rb:20-31 | Without the three keywords, both branches receive `with_edition` and `with_date` true and `with_language_code` :iso, over the other keywords. |
| UrnRenderer.RenderIdentifier | lib/pubid/iso/renderer/urn.rb:37-40 | The base rendering, then stage, corrigendum stage, iteration, edition, amendments and corrigendums. |
| UrnRenderer.IterationAfterStage | lib/pubid/iso/renderer/urn.rb:37-40 | With no stage or corrigendum stage, the iteration directly follows the base rendering. |
| UrnRenderer.UrnTailInOrder | lib/pubid/iso/renderer/urn.rb:37-40 | After the base: stage, corrigendum stage, iteration, edition, amendments and corrigendums. |
| UrnRenderer.RenderStage | lib/pubid/iso/renderer/urn.rb:46-48 | ":stage-" then the harmonized code. |
| UrnRenderer.RenderStageAsUrnClass | lib/pubid/iso/renderer/urn.rb:46-48 | The renderer's stage part equals the `Urn` class's for every table stage without an iteration. |
| UrnRenderer.RenderIteration | lib/pubid/iso/renderer/urn.rb:50-52 | ".v" and the iteration, present exactly when the typed stage has a stage. |
| UrnRenderer.IterationAsUrnClass | lib/pubid/iso/renderer/urn.rb:50-52 | With a stage, the iteration piece is the `Urn` class's. |
| UrnRenderer.RenderYear | lib/pubid/iso/renderer/urn.rb:58-60 | ":" then the year. |
| UrnRenderer.RenderType | lib/pubid/iso/renderer/urn.rb:54-56 | ":" and the lower-cased type, absent for "is". |
| UrnRenderer.TypeAsUrnClass | lib/pubid/iso/renderer/urn.rb:54-56 | The renderer's type part equals the `Urn` class's, except that "is" is dropped here and kept there. |
| SupplementRenderer.TypeConst | lib/pubid/iso/renderer/supplement.rb:22 | `self.class::TYPE` is "SUP" for `Supplement` itself and the subclass's own constant otherwise. |
| SupplementRenderer.TypePrefix | lib/pubid/iso/renderer/supplement.rb:22-26 | Without a typed stage, the class's `TYPE`; with one, nothing. Either way a space goes in front exactly when the stage is a Stage with a non-empty abbreviation. |
| SupplementRenderer.RenderIdentifier | lib/pubid/iso/renderer/supplement.rb:20-33 | `Supplement` itself renders typed stage, stage, publisher, " ", type prefix, then number, part, iteration, year and edition. A subclass renders "/", typed stage, stage, its own type prefix and the separator, then the same trailer, with no publisher. |
| SupplementRenderer.Space | lib/pubid/iso/renderer/supplement.rb:21 | "." exactly for French, " " otherwise. |
| SupplementRenderer.TemplateHeads | lib/pubid/iso/renderer/supplement.rb:28-32 | The subclass template opens with "/" and has no publisher slot. The plain template opens with the typed stage. |
| SupplementRenderer.SubclassOpensWithSlash | lib/pubid/iso/renderer/supplement.rb:31-32 | A subclass rendering starts with "/". |
| SupplementRenderer.StagedCorrigendum | spec/pubid_iso/corrigendum_spec.rb:10-15 | A subclass with `TYPE` "Cor", stage "CD", number 1 and year 2009 renders "/CD Cor 1:2009". |
| SupplementRenderer.UnstagedCorrigendum | spec/pubid_iso/corrigendum_spec.rb:3-8 | The same subclass without a stage renders "/Cor 1:2009". |
| SupplementRenderer.RenderStage | lib/pubid/iso/renderer/supplement.rb:35-38 | The stage is dropped exactly when a typed stage is present. |
| SupplementRenderer.RenderPublisher | lib/pubid/iso/renderer/supplement.rb:40-42 | " " and the publisher, absent exactly for an empty publisher. |
| SupplementRenderer.EditionShownAsBase | lib/pubid/iso/renderer/supplement.rb:44-46 | The edition is shown under the same option as in the base renderer, but always with a different text. |
| SupplementRenderer.RenderKeywords | lib/pubid/iso/renderer/supplement.rb:10 | `with_edition`, `with_language_code` and `with_date` default to true, :iso and true. Other keywords pass through. |
| SupplementRenderer.AsWrittenRaises | lib/pubid/iso/renderer/supplement.rb:10-20 | As written, `render` always raises `ArgumentError`: one argument is given to a two-argument `render_identifier`. |
| SupplementRenderer.BaseFirstLanguageLast | lib/pubid/iso/renderer/supplement.rb:10-18 | With the call corrected, the rendering opens with the base identifier and ends with the base's language. |
| SupplementRenderer.DefaultKeywords | lib/pubid/iso/renderer/supplement.rb:10-11 | The base is rendered with the edition by default. |
| DirRenderer.RenderIdentifier | lib/pubid/iso/renderer/dir.rb:4-14 | The main fields with " DIR", then " + " and the joint document's fields exactly when one is present. The main part is always a prefix. |
| DirRenderer.JointHasNoDir | lib/pubid/iso/renderer/dir.rb:5-10 | The joint part repeats every field except the " DIR" literal. |
| DirRenderer.RenderNumber | lib/pubid/iso/renderer/dir.rb:16-18 | " " then the number. |
| DirRenderer.RenderDirtype | lib/pubid/iso/renderer/dir.rb:20-22 | " " then the directive type. |
| DirRenderer.RenderSupplement | lib/pubid/iso/renderer/dir.rb:24-31 | " publisher SUP", or " SUP" for a nil or empty publisher, then the number and the edition when present. |
| DirRenderer.EmptyPublisherIsNone | lib/pubid/iso/renderer/dir.rb:25 | An empty supplement publisher renders like a nil one. |
| DirRenderer.EditionAsSupplementRenderer | lib/pubid/iso/renderer/dir.rb:30 | The directive supplement's edition reads as the supplement renderer's. |
| Template.FormatReadsOnlyRefs | lib/pubid/iso/renderer/base.rb:10-18 | A `%{}` template reads only the slots it names. |
| Template.FormatWithoutValues | lib/pubid/iso/renderer/base.rb:10 | With `params.default = ""`, a template over missing slots renders its literals alone. |
| RubyText.SplitOfJoin | lib/pubid/iso/transformer.rb:20-23 | `split` undoes `join` when no part holds the separator and the last part is non-empty. |
| RubyText.SortOrderIndependent | lib/pubid/iso/urn.rb:54 | `sort` depends only on the multiset of its input. |
| RubyText.LookupRoundTrip | lib/pubid/iso/transformer.rb:30 | On a one-to-one table, `Hash#key` and `Hash#[]` invert each other. |
| IdentifierExamples.FdisWithCopublisher | spec/pubid_iso/identifier_spec.rb:17-22 | "ISO/IEC FDIS 7816-6" gives "urn:iso:std:iso-iec:7816:-6:stage-50.00". |
| IdentifierExamples.TechnicalReport | spec/pubid_iso/identifier_spec.rb:24-29 | "ISO/TR 30406:2017" gives "urn:iso:std:iso:tr:30406". |
| IdentifierExamples.Iterated | spec/pubid_iso/identifier_spec.rb:94-99 | "ISO/FDIS 21420.2" gives "urn:iso:std:iso:21420:stage-50.00.v2". |
| IdentifierExamples.DraftAmendment | spec/pubid_iso/identifier_spec.rb:157-162 | "ISO/IEC 10646:2020/CD Amd 1" gives "urn:iso:std:iso-iec:10646:stage-30.00:amd:v1". |
| IdentifierExamples.NumberedAmendment | spec/pubid_iso/identifier_spec.rb:150-155 | "ISO 13688:2013/Amd 1:2021(en)" gives "urn:iso:std:iso:13688:amd:2021:v1:en". |
| IdentifierExamples.AmendedAndCorrected | spec/pubid_iso/identifier_spec.rb:164-169 | "ISO/IEC 13818-1:2015/Amd 3:2016/Cor 1:2017" gives "urn:iso:std:iso-iec:13818:-1:amd:2016:v3:cor:2017:v1". |
| IdentifierExamples.AmendedAndCorrectedText | lib/pubid/iso/identifier.rb:87-107 | The same fields print their supplements as "/Amd 3:2016/Cor 1:2017". |
| IdentifierExamples.ExampleTokensKept | lib/pubid/iso/transformer.rb:7-61 | The transformer keeps the examples' tokens ISO, IEC, FDIS, CD and TR unchanged. |

## Left out

- The Parslet grammar (`Parser`) and the `ParseFailed` → `ParseError` rescue at lib/pubid/iso/identifier.rb:44-45 are not modelled. Grammar, parser and errors are not part of this model, so `parse` starts from the parser's output.
- Parslet's `Transform` tree walking is left out. Each rule is applied to one key and value (`Transformer.Apply`).
- The examples' parser output is written out by hand. The URN examples state what the URN is for that table, not that the grammar produces it.
- Calls into the `pubid-core` superclasses become parameters of the functions that make them. These are `prerender_params`, `render_base`, `render_base_identifier`, `render_supplement`, `render_language`, `Core::Renderer::Urn` and the base identifier's `to_s`.
- The Stage, HarmonizedStageCode, Amendment and Corrigendum classes, and the French and publicly-available-specification renderers, are not part of this model. A stage is seen through its abbreviation or harmonized code only.
- Floats are not modelled. `STAGES` holds integer pairs, and `sprintf('%05.2f')` is their "DD.DD" text. 20.20 prints as "20.20", as the Float does.
- `downcase` is ASCII-only. Non-ASCII letters are kept. No publisher or type in the model's tables is affected.
- `inspect` is modelled without escaping quotes or backslashes inside elements.
- `send` with an attribute that has no accessor (`NoMethodError`) is out of scope. Attributes are a closed datatype.
- `Urn`'s `joint_document` accessor is not modelled. No method of `Urn` reads it.
- An explicit nil handed to `Urn.new` is modelled as an absent attribute. Every reader of `Urn` tests for nil.
- The `params.default = ""` mutations (base.rb:10, dir.rb:9) are modelled by the template's "" default for missing slots, not as a mutation of the hash.
- An option's Symbol and String values are both modelled as one `Word`.
- Reading the fixture files in spec/support is I/O and out of scope.
- `def_delegators`, `instance_variables` and `send` are modelled by their effect: a shared constant and a table of attributes.
- BaseRenderer.Render: its contract gives the option hash and the template reads. What `render_base` adds is a parameter.
- IsoIdentifier.Identifier.Urn: `urn` calls `URN.new(**params)`, but `Pubid::Iso` defines no `URN`. The only `URN` is `PubidIso::URN` (lib/pubid_iso/urn.rb:2), whose `initialize` takes one positional identifier and would reject keyword arguments. The model takes `URN` to mean `Pubid::Iso::Urn`, whose keyword `initialize` and accessors match the table, and which the URN examples expect. The examples' subject `PubidIso::Identifier` is likewise taken to be `Pubid::Iso::Identifier`.
- SupplementRenderer.StagedCorrigendum, SupplementRenderer.UnstagedCorrigendum: the corrigendum renderer subclass is not part of this model. The examples give a subclass whose `TYPE` is "Cor" the prerendered parameters by hand.
- Transformer.ConvertStage: not idempotent for "ПД", as the source is. Idempotence is stated only for the language and type rules.

## Findings

| source | as written | input that shows it | evidently intended | confidence | as-written member | corrected member |
|---|---|---|---|---|---|---|
| lib/pubid/iso/renderer/base.rb:12 and lib/pubid/iso/renderer/supplement.rb:20 | `Base#render` calls `render_identifier(params)` with one argument. `Supplement#render_identifier(params, opts)` needs two, so `super` in `Supplement#render` raises `ArgumentError`. | any supplement rendered through `render`, e.g. with no keyword arguments | pass the rendering options as the second argument | not executed | SupplementRenderer.AsWrittenRaises | SupplementRenderer.BaseFirstLanguageLast |
