/** `Pubid::Iso::Identifier` (lib/pubid/iso/identifier.rb): construction with
    its coercion of values, `parse`'s merge of repeated keys, the
    human-readable rendering `to_s`, and the hand-over to the URN class. */
module IsoIdentifier {
  import opened RubyText
  import opened IdentifierFields
  import Transformer
  import IsoUrn

  // ---------------------------------------------------------------------
  // initialize
  // ---------------------------------------------------------------------

  /** A value passed to `initialize`: a String, an Integer, nil or an
      Array. */
  datatype Raw = RStr(s: string) | RInt(i: int) | RNil | RArr(items: seq<Value>)

  /** `value.is_a?(Array) && value || value.to_s`: an Array is stored as it
      is, anything else as its `to_s`, so nil is stored as "" and an
      Integer as its decimal text. */
  function Coerce(v: Raw): (r: Value)
    ensures r.Arr? <==> v.RArr?
    ensures v.RArr? ==> r.items == v.items
    ensures v.RStr? ==> r == Str(v.s)
    ensures v.RNil? ==> r == Str("")
    ensures v.RInt? ==> r.Str? && IsDecimal(r.s) && SignedValue(r.s) == v.i
  {
    match v
    case RArr(items) => Arr(items)
    case RStr(s) => Str(s)
    case RNil => Str("")
    case RInt(i) => IntToStringRoundTrip(i); Str(IntToString(i))
  }

  /** The table `initialize` leaves: every option assigned, coerced. */
  function CoerceAll(opts: map<Attr, Raw>): (f: Fields)
    ensures f.Keys == opts.Keys
    ensures forall a :: a in opts ==> f[a] == Coerce(opts[a])
  {
    map a | a in opts :: Coerce(opts[a])
  }

  /** A stored value handed back to `initialize`, as `parse` does. */
  function Uncoerced(v: Value): (r: Raw)
    ensures Coerce(r) == v
  {
    match v
    case Str(s) => RStr(s)
    case Arr(items) => RArr(items)
  }

  function UncoercedAll(f: Fields): (opts: map<Attr, Raw>)
    ensures CoerceAll(opts) == f
  {
    map a | a in f :: Uncoerced(f[a])
  }

  // ---------------------------------------------------------------------
  // parse: the parser's output, transformed and merged
  // ---------------------------------------------------------------------

  /** A Hash built by the parser, in insertion order. */
  type Tree = seq<(Attr, string)>

  /** What `Parser.new.parse` returns: one Hash, or an Array of Hashes when
      the identifier names copublishers. */
  datatype ParserOutput = Single(tree: Tree) | Sequence(trees: seq<Tree>)

  /** `params.map { |k, v| Transformer.new.apply(k => v).to_a.first }.to_h`:
      each token transformed; a later equal key replaces an earlier one. */
  function TreeFields(tree: Tree): (f: Fields)
    ensures forall a :: a in f <==> exists i :: 0 <= i < |tree| && tree[i].0 == a
    decreases |tree|
  {
    if tree == [] then map[]
    else
      var (k, v) := tree[|tree| - 1];
      var init := TreeFields(tree[..|tree| - 1]);
      assert forall i :: 0 <= i < |tree| - 1 ==> tree[..|tree| - 1][i] == tree[i];
      init[k := Str(Transformer.Apply(k, v))]
  }

  /** The value one pair contributes: the transformed token, paired with the
      value the key had before this Hash when it had one. */
  function Joined(r: Fields, k: Attr, v: string): Value {
    if k in r then Arr([Str(v), r[k]]) else Str(v)
  }

  /** The inner `each` over one Hash: `result` grows, while `r.key?(k)`
      still consults the table as it was before this Hash. */
  function MergePairs(r: Fields, result: Fields, pairs: Tree): Fields
    decreases |pairs|
  {
    if pairs == [] then result
    else
      var k := pairs[0].0;
      MergePairs(r, result[k := Joined(r, k, Transformer.Apply(k, pairs[0].1))], pairs[1..])
  }

  function MergeTree(r: Fields, tree: Tree): Fields {
    MergePairs(r, r, tree)
  }

  /** `params.inject({}) { |r, i| ... }`. */
  function MergeAll(trees: seq<Tree>): Fields
    decreases |trees|
  {
    if trees == [] then map[]
    else MergeTree(MergeAll(trees[..|trees| - 1]), trees[|trees| - 1])
  }

  /** The table `parse` hands to `new`. */
  function ParsedFields(output: ParserOutput): Fields {
    match output
    case Single(tree) => TreeFields(tree)
    case Sequence(trees) => MergeAll(trees)
  }

  /** The merge as the source runs it: two nested loops. */
  method MergeRepeated(trees: seq<Tree>) returns (params: Fields)
    ensures params == MergeAll(trees)
  {
    params := map[];
    var n := 0;
    while n < |trees|
      invariant 0 <= n <= |trees|
      invariant params == MergeAll(trees[..n])
    {
      var r := params;
      var result := r;
      var pairs := trees[n];
      var j := 0;
      while j < |pairs|
        invariant 0 <= j <= |pairs|
        invariant MergePairs(r, result, pairs[j..]) == MergeTree(r, pairs)
      {
        var k := pairs[j].0;
        assert pairs[j..][1..] == pairs[j + 1..];
        result := result[k := Joined(r, k, Transformer.Apply(k, pairs[j].1))];
        j := j + 1;
      }
      assert pairs[j..] == [];
      assert trees[..n + 1][..n] == trees[..n];
      params := result;
      n := n + 1;
    }
    assert trees[..n] == trees;
  }

  // What the merge produces for one key

  /** The transformed value of the last pair with key `k`, if any. */
  function LastIn(pairs: Tree, k: Attr): Option<string>
    decreases |pairs|
  {
    if pairs == [] then None
    else
      var rest := LastIn(pairs[1..], k);
      if rest.Some? then rest
      else if pairs[0].0 == k then Some(Transformer.Apply(k, pairs[0].1))
      else None
  }

  /** The values a key takes across the Hashes, one per Hash that has it. */
  function ValuesOf(trees: seq<Tree>, k: Attr): seq<string>
    decreases |trees|
  {
    if trees == [] then []
    else
      ValuesOf(trees[..|trees| - 1], k)
      + (match LastIn(trees[|trees| - 1], k) case Some(v) => [v] case None => [])
  }

  /** The shape a repeated key ends up with: the newest value first, then
      everything before it, nested. */
  function Nest(vs: seq<string>): Value
    requires |vs| >= 1
    decreases |vs|
  {
    if |vs| == 1 then Str(vs[0])
    else Arr([Str(vs[|vs| - 1]), Nest(vs[..|vs| - 1])])
  }

  lemma {:induction false} MergePairsAt(r: Fields, result: Fields, pairs: Tree, k: Attr)
    ensures var m := MergePairs(r, result, pairs);
      match LastIn(pairs, k)
      case Some(v) => k in m && m[k] == Joined(r, k, v)
      case None => (k in m <==> k in result) && (k in result ==> m[k] == result[k])
    decreases |pairs|
  {
    if pairs != [] {
      var k0 := pairs[0].0;
      MergePairsAt(r, result[k0 := Joined(r, k0, Transformer.Apply(k0, pairs[0].1))], pairs[1..], k);
    }
  }

  /** A key is in the merged table exactly when some Hash has it; once it
      is, its value is the nest of its values in order. */
  lemma {:induction false} MergeAllAt(trees: seq<Tree>, k: Attr)
    ensures k in MergeAll(trees) <==> |ValuesOf(trees, k)| >= 1
    ensures |ValuesOf(trees, k)| >= 1 ==> MergeAll(trees)[k] == Nest(ValuesOf(trees, k))
    decreases |trees|
  {
    if trees != [] {
      var init := trees[..|trees| - 1];
      var last := trees[|trees| - 1];
      MergeAllAt(init, k);
      var before := MergeAll(init);
      MergePairsAt(before, before, last, k);
      match LastIn(last, k) {
        case None =>
          assert ValuesOf(trees, k) == ValuesOf(init, k) + [];
          assert ValuesOf(init, k) + [] == ValuesOf(init, k);
        case Some(v) =>
          var vs := ValuesOf(trees, k);
          assert vs == ValuesOf(init, k) + [v];
          assert vs[..|vs| - 1] == ValuesOf(init, k);
      }
    }
  }

  /** Twice: the two values in an array, newest first. Three times: the
      array nests, so a third copublisher does not give a flat list. */
  lemma NestShapes(a: string, b: string, c: string)
    ensures Nest([a]) == Str(a)
    ensures Nest([a, b]) == Arr([Str(b), Str(a)])
    ensures Nest([a, b, c]) == Arr([Str(c), Arr([Str(b), Str(a)])])
  {
    assert [a, b][..1] == [a];
    assert [a, b, c][..2] == [a, b];
  }

  // ---------------------------------------------------------------------
  // to_s and its field renderers
  // ---------------------------------------------------------------------

  /** `originator`: the publisher, then "/" and each copublisher in sorted
      order with "-" turned into "/". With a copublisher, a missing
      publisher cannot be added to and an Array publisher cannot take a
      String. */
  function OriginatorText(f: Fields): Result<string> {
    if Copublisher in f then
      if Publisher !in f then Err(NilReceiver("+"))
      else if f[Publisher].Arr? then Err(NoSuchMethod("+"))
      else Ok(f[Publisher].s + Segments(SortedCopublishers(f[Copublisher]), "/", '-', '/', false))
    else Ok(Text(f, Publisher))
  }

  /** The separator before type and stage: " " after a copublisher, "/"
      otherwise. */
  function Separator(f: Fields): string {
    if Copublisher in f then " " else "/"
  }

  function TypeText(f: Fields): string {
    if Type in f then Separator(f) + Text(f, Type) else ""
  }

  function StageText(f: Fields): string {
    if Stage in f then Separator(f) + Text(f, Stage) else ""
  }

  function PartText(f: Fields): string {
    if Part in f then "-" + Text(f, Part) else ""
  }

  function YearText(f: Fields): string {
    if Year in f then ":" + Text(f, Year) else ""
  }

  function EditionText(f: Fields): string {
    if Edition in f then " ED" + Text(f, Edition) else ""
  }

  function IterationText(f: Fields): string {
    if Iteration in f then "." + Text(f, Iteration) else ""
  }

  /** `supplements`: the amendment text, then the corrigendum text. */
  function SupplementsText(f: Fields): string {
    AmendmentText(f) + CorrigendumText(f)
  }

  /** The text that opens a supplement: "/", then its stage and a space
      when it has one. */
  function SupplementHead(f: Fields, stage: Attr): (r: string)
    ensures |r| >= 1 && r[0] == '/'
  {
    if stage in f then "/" + Text(f, stage) + " " else "/"
  }

  /** The head, "Amd " and the version, then ":" and the number when there
      is one; "" without an amendment. */
  function AmendmentText(f: Fields): (r: string)
    ensures r == "" <==> Amendment !in f
    ensures Amendment in f ==> var h := SupplementHead(f, AmendmentStage);
      |r| >= |h| + 4 && r[..|h| + 4] == h + "Amd "
    ensures Amendment in f ==> var h := SupplementHead(f, AmendmentStage);
      r[|h| + 4..] == if AmendmentNumber in f then Text(f, AmendmentVersion) + ":" + Text(f, AmendmentNumber)
                      else Text(f, AmendmentVersion)
  {
    if Amendment !in f then ""
    else
      SupplementHead(f, AmendmentStage)
      + (if AmendmentNumber in f then "Amd " + Text(f, AmendmentVersion) + ":" + Text(f, AmendmentNumber)
         else "Amd " + Text(f, AmendmentVersion))
  }

  /** The same for the corrigendum, with "Cor ". */
  function CorrigendumText(f: Fields): (r: string)
    ensures r == "" <==> Corrigendum !in f
    ensures Corrigendum in f ==> var h := SupplementHead(f, CorrigendumStage);
      |r| >= |h| + 4 && r[..|h| + 4] == h + "Cor "
    ensures Corrigendum in f ==> var h := SupplementHead(f, CorrigendumStage);
      r[|h| + 4..] == if CorrigendumNumber in f then Text(f, CorrigendumVersion) + ":" + Text(f, CorrigendumNumber)
                      else Text(f, CorrigendumVersion)
  {
    if Corrigendum !in f then ""
    else
      SupplementHead(f, CorrigendumStage)
      + (if CorrigendumNumber in f then "Cor " + Text(f, CorrigendumVersion) + ":" + Text(f, CorrigendumNumber)
         else "Cor " + Text(f, CorrigendumVersion))
  }

  /** After "Amd ", a numbered amendment's text splits at ":" back into the
      version and the number, when neither holds a ":". */
  lemma AmendmentTextReadsBack(f: Fields)
    requires Amendment in f && AmendmentNumber in f
    requires Text(f, AmendmentNumber) != "" && ':' !in Text(f, AmendmentNumber) && ':' !in Text(f, AmendmentVersion)
    ensures var h := SupplementHead(f, AmendmentStage);
      Split(AmendmentText(f)[|h| + 4..], ':') == [Text(f, AmendmentVersion), Text(f, AmendmentNumber)]
  {
    var xs := [Text(f, AmendmentVersion), Text(f, AmendmentNumber)];
    assert Join(xs, ":") == Text(f, AmendmentVersion) + ":" + Text(f, AmendmentNumber) by {
      assert xs[1..] == [Text(f, AmendmentNumber)];
    }
    SplitOfJoin(xs, ':');
  }

  /** The same for a numbered corrigendum after "Cor ". */
  lemma CorrigendumTextReadsBack(f: Fields)
    requires Corrigendum in f && CorrigendumNumber in f
    requires Text(f, CorrigendumNumber) != "" && ':' !in Text(f, CorrigendumNumber) && ':' !in Text(f, CorrigendumVersion)
    ensures var h := SupplementHead(f, CorrigendumStage);
      Split(CorrigendumText(f)[|h| + 4..], ':') == [Text(f, CorrigendumVersion), Text(f, CorrigendumNumber)]
  {
    var xs := [Text(f, CorrigendumVersion), Text(f, CorrigendumNumber)];
    assert Join(xs, ":") == Text(f, CorrigendumVersion) + ":" + Text(f, CorrigendumNumber) by {
      assert xs[1..] == [Text(f, CorrigendumNumber)];
    }
    SplitOfJoin(xs, ':');
  }

  /** With both supplements the amendment text comes first and the
      corrigendum text starts right after it; with neither there is no
      supplement text. */
  lemma AmendmentBeforeCorrigendum(f: Fields)
    ensures Amendment !in f && Corrigendum !in f ==> SupplementsText(f) == ""
    ensures Amendment in f && Corrigendum in f ==>
      var n := |AmendmentText(f)|;
      SupplementsText(f)[..n] == AmendmentText(f) && SupplementsText(f)[n..] == CorrigendumText(f)
      && SupplementsText(f)[n] == '/'
  {
    var a, c := AmendmentText(f), CorrigendumText(f);
    assert SupplementsText(f) == a + c;
    if Amendment in f && Corrigendum in f {
      assert (a + c)[..|a|] == a && (a + c)[|a|..] == c;
      assert c[0] == SupplementHead(f, CorrigendumStage)[0];
    }
  }

  function LanguageText(f: Fields): string {
    if Language in f then "(" + Text(f, Language) + ")" else ""
  }

  /** Everything after the originator. */
  function Rest(f: Fields): string {
    TypeText(f) + StageText(f) + " " + Text(f, Number) + PartText(f) + IterationText(f)
    + YearText(f) + EditionText(f) + SupplementsText(f) + LanguageText(f)
  }

  /** `to_s`, on a variable table. It raises only when there is a
      copublisher and the publisher is nil (no `+` on nil) or an Array (no
      `+` taking a String); otherwise it is the originator followed by the
      rest. */
  function Render(f: Fields): (r: Result<string>)
    ensures r.Err? <==> Copublisher in f && (Publisher !in f || f[Publisher].Arr?)
    ensures Copublisher in f && Publisher !in f ==> r == Err(NilReceiver("+"))
    ensures Copublisher in f && Publisher in f && f[Publisher].Arr? ==> r == Err(NoSuchMethod("+"))
    ensures r.Ok? ==> r.value == OriginatorText(f).value + Rest(f)
  {
    match OriginatorText(f)
    case Err(e) => Err(e)
    case Ok(o) => Ok(o + Rest(f))
  }

  // ---------------------------------------------------------------------
  // The class
  // ---------------------------------------------------------------------

  class Identifier {
    var vars: Fields

    /** `initialize(**opts)`: each option assigned in turn, coerced. */
    constructor(opts: map<Attr, Raw>)
      ensures vars == CoerceAll(opts)
    {
      var acc: Fields := map[];
      var todo := opts.Keys;
      while todo != {}
        invariant todo <= opts.Keys
        invariant acc.Keys == opts.Keys - todo
        invariant forall a :: a in acc ==> acc[a] == Coerce(opts[a])
        decreases todo
      {
        var k :| k in todo;
        acc := acc[k := Coerce(opts[k])];
        todo := todo - {k};
      }
      vars := acc;
    }

    /** `Identifier.parse`, from the parser's output onwards. */
    static method Parse(output: ParserOutput) returns (id: Identifier)
      ensures fresh(id)
      ensures id.vars == ParsedFields(output)
    {
      var params: Fields;
      match output {
        case Single(tree) => params := TreeFields(tree);
        case Sequence(trees) => params := MergeRepeated(trees);
      }
      id := new Identifier(UncoercedAll(params));
    }

    /** `urn`: a URN object holding every instance variable as it is. */
    method Urn() returns (u: IsoUrn.Urn)
      ensures fresh(u)
      ensures u.vars == vars
    {
      u := new IsoUrn.Urn(vars);
    }

    /** `originator`: wraps a single copublisher into an array, in place,
        then renders. */
    method Originator() returns (r: Result<string>)
      modifies this
      ensures vars == WrapCopublisher(old(vars))
      ensures r == OriginatorText(old(vars)) && r == OriginatorText(vars)
    {
      if Copublisher in vars {
        SortedCopublishersWrap(vars[Copublisher]);
      }
      vars := WrapCopublisher(vars);
      r := OriginatorText(vars);
    }

    /** `to_s`: the originator first (with its rewrite), then the fields. */
    method ToS() returns (r: Result<string>)
      modifies this
      ensures vars == WrapCopublisher(old(vars))
      ensures r == Render(old(vars)) && r == Render(vars)
    {
      ghost var before := vars;
      var origin := Originator();
      RestIgnoresWrap(before);
      match origin {
        case Err(e) => r := Err(e);
        case Ok(o) => r := Ok(o + Rest(vars));
      }
    }
  }

  // ---------------------------------------------------------------------
  // What the rendering promises
  // ---------------------------------------------------------------------

  lemma RestIgnoresWrap(f: Fields)
    ensures Rest(WrapCopublisher(f)) == Rest(f)
  {
    if Copublisher in f {
      var v := f[Copublisher];
      assert WrapCopublisher(f) == f[Copublisher := Arr(AsArray(v))];
      assert f[Copublisher := v] == f;
      RestIgnoresCopublisherValue(f, Arr(AsArray(v)), v);
    }
  }

  /** Rendering after the in-place rewrite, as a second `to_s` does, gives
      the same text. */
  lemma RenderWrapInvariant(f: Fields)
    ensures Render(WrapCopublisher(f)) == Render(f)
  {
    if Copublisher in f {
      SortedCopublishersWrap(f[Copublisher]);
    }
    RestIgnoresWrap(f);
  }

  /** Copublisher arrays holding the same names in any order render
      alike. */
  lemma CopublisherOrderIndependent(f: Fields, xs: seq<Value>, ys: seq<Value>)
    requires multiset(MapToS(xs)) == multiset(MapToS(ys))
    ensures Render(f[Copublisher := Arr(xs)]) == Render(f[Copublisher := Arr(ys)])
  {
    SortedCopublishersOrderIndependent(xs, ys);
    RestIgnoresCopublisherValue(f, Arr(xs), Arr(ys));
  }

  /** Only the presence of a copublisher matters after the originator. */
  lemma RestIgnoresCopublisherValue(f: Fields, v: Value, w: Value)
    ensures Rest(f[Copublisher := v]) == Rest(f[Copublisher := w])
  {
    var g, h := f[Copublisher := v], f[Copublisher := w];
    assert Separator(g) == Separator(h);
    assert TypeText(g) == TypeText(h) && StageText(g) == StageText(h);
    SupplementsIgnoreCopublisher(f, v, w);
    assert PartText(g) == PartText(h) && IterationText(g) == IterationText(h);
    assert YearText(g) == YearText(h) && EditionText(g) == EditionText(h) && LanguageText(g) == LanguageText(h);
    assert Text(g, Number) == Text(h, Number);
  }

  lemma SupplementsIgnoreCopublisher(f: Fields, v: Value, w: Value)
    ensures AmendmentText(f[Copublisher := v]) == AmendmentText(f[Copublisher := w])
    ensures CorrigendumText(f[Copublisher := v]) == CorrigendumText(f[Copublisher := w])
  {
    var g, h := f[Copublisher := v], f[Copublisher := w];
    assert SupplementHead(g, AmendmentStage) == SupplementHead(h, AmendmentStage);
    assert SupplementHead(g, CorrigendumStage) == SupplementHead(h, CorrigendumStage);
    assert Text(g, AmendmentVersion) == Text(h, AmendmentVersion) && Text(g, AmendmentNumber) == Text(h, AmendmentNumber);
    assert Text(g, CorrigendumVersion) == Text(h, CorrigendumVersion) && Text(g, CorrigendumNumber) == Text(h, CorrigendumNumber);
  }

  predicate NoDash(name: string) {
    '-' !in name
  }

  /** Names without "-" are copied unchanged, each after a "/". */
  lemma {:induction false} SegmentsAreJoin(p: string, names: seq<string>)
    requires forall i :: 0 <= i < |names| ==> NoDash(names[i])
    ensures p + Segments(names, "/", '-', '/', false) == Join([p] + names, "/")
    decreases |names|
  {
    if names == [] {
      assert [p] + names == [p];
      assert p + "" == p;
    } else {
      var n, rest := names[0], names[1..];
      assert forall i :: 0 <= i < |rest| ==> NoDash(rest[i]) by {
        forall i | 0 <= i < |rest| ensures NoDash(rest[i]) {
          assert rest[i] == names[i + 1];
        }
      }
      var tail := Segments(rest, "/", '-', '/', false);
      assert n + tail == Join(names, "/") by {
        SegmentsAreJoin(n, rest);
        assert [n] + rest == names;
      }
      SegmentsStep(names);
      JoinStep(p, names);
      SlashAssoc(p, n, tail);
    }
  }

  lemma SlashAssoc(p: string, n: string, tail: string)
    ensures p + ("/" + n + tail) == p + "/" + (n + tail)
  {
  }

  lemma SegmentsStep(names: seq<string>)
    requires names != [] && NoDash(names[0])
    ensures Segments(names, "/", '-', '/', false) == "/" + names[0] + Segments(names[1..], "/", '-', '/', false)
  {
    assert Gsub(names[0], '-', '/') == names[0];
  }

  lemma JoinStep(p: string, names: seq<string>)
    requires names != []
    ensures Join([p] + names, "/") == p + "/" + Join(names, "/")
  {
    var xs := [p] + names;
    assert |xs| > 1 && xs[0] == p && xs[1..] == names;
  }

  /** Plain names (non-empty, no "/" and no "-"). */
  predicate Plain(name: string) {
    name != [] && '/' !in name && '-' !in name
  }

  /** Splitting an originator at "/" gives back the publisher followed by
      the copublishers in sorted order. */
  lemma OriginatorSplits(f: Fields)
    requires Publisher in f && f[Publisher].Str? && Plain(f[Publisher].s)
    requires Copublisher in f
    requires forall i :: 0 <= i < |MapToS(AsArray(f[Copublisher]))| ==> Plain(MapToS(AsArray(f[Copublisher]))[i])
    ensures OriginatorText(f).Ok?
    ensures Split(OriginatorText(f).value, '/') == [f[Publisher].s] + SortedCopublishers(f[Copublisher])
  {
    var p := f[Publisher].s;
    var names := MapToS(AsArray(f[Copublisher]));
    var sorted := SortedCopublishers(f[Copublisher]);
    assert forall i :: 0 <= i < |sorted| ==> Plain(sorted[i]) by {
      forall i | 0 <= i < |sorted|
        ensures Plain(sorted[i])
      {
        assert sorted[i] in multiset(sorted);
        assert sorted[i] in multiset(names);
        var j :| 0 <= j < |names| && names[j] == sorted[i];
      }
    }
    assert forall i :: 0 <= i < |sorted| ==> NoDash(sorted[i]) by {
      forall i | 0 <= i < |sorted| ensures NoDash(sorted[i]) {
        assert Plain(sorted[i]);
      }
    }
    SegmentsAreJoin(p, sorted);
    var xs := [p] + sorted;
    assert forall i :: 0 <= i < |xs| ==> Plain(xs[i]);
    SplitOfJoin(xs, '/');
  }

  /** Without a copublisher the originator is the publisher as it is. */
  lemma OriginatorWithoutCopublisher(f: Fields)
    requires Copublisher !in f && Publisher in f && f[Publisher].Str?
    ensures OriginatorText(f) == Ok(f[Publisher].s)
  {
  }

  /** The language, in parentheses, ends every rendering that has one. */
  lemma LanguageIsSuffix(f: Fields)
    requires Language in f && Render(f).Ok?
    ensures var s := Render(f).value; var l := "(" + Text(f, Language) + ")";
      |s| >= |l| && s[|s| - |l|..] == l
  {
    var o := OriginatorText(f).value;
    var l := "(" + Text(f, Language) + ")";
    var body := TypeText(f) + StageText(f) + " " + Text(f, Number) + PartText(f) + IterationText(f)
      + YearText(f) + EditionText(f) + SupplementsText(f);
    assert Rest(f) == body + l;
    assert Render(f).value == (o + body) + l;
  }

  /** The attributes `to_s` never reads: the substage and Supplements. */
  predicate Rendered(a: Attr) {
    a != Substage && a != Supplements
  }

  lemma RenderReadsOnlyRendered(f: Fields, g: Fields)
    requires forall a :: Rendered(a) ==> (a in f <==> a in g) && (a in f ==> f[a] == g[a])
    ensures Render(f) == Render(g)
  {
    assert Rendered(Publisher) && Rendered(Copublisher) && Rendered(Type) && Rendered(Stage);
    assert OriginatorText(f) == OriginatorText(g);
    SameRest(f, g);
  }

  lemma SameRest(f: Fields, g: Fields)
    requires forall a :: Rendered(a) ==> (a in f <==> a in g) && (a in f ==> f[a] == g[a])
    ensures Rest(f) == Rest(g)
  {
    SameHead(f, g);
    SameMiddle(f, g);
    SameSupplements(f, g);
  }

  lemma SameHead(f: Fields, g: Fields)
    requires forall a :: Rendered(a) ==> (a in f <==> a in g) && (a in f ==> f[a] == g[a])
    ensures TypeText(f) == TypeText(g) && StageText(f) == StageText(g)
  {
    assert Rendered(Copublisher) && Rendered(Type) && Rendered(Stage);
  }

  lemma SameMiddle(f: Fields, g: Fields)
    requires forall a :: Rendered(a) ==> (a in f <==> a in g) && (a in f ==> f[a] == g[a])
    ensures Text(f, Number) == Text(g, Number) && PartText(f) == PartText(g) && IterationText(f) == IterationText(g)
    ensures YearText(f) == YearText(g) && EditionText(f) == EditionText(g) && LanguageText(f) == LanguageText(g)
  {
    assert Rendered(Number) && Rendered(Part) && Rendered(Iteration) && Rendered(Year) && Rendered(Edition) && Rendered(Language);
  }

  lemma SameSupplements(f: Fields, g: Fields)
    requires forall a :: Rendered(a) ==> (a in f <==> a in g) && (a in f ==> f[a] == g[a])
    ensures SupplementsText(f) == SupplementsText(g)
  {
    SameAmendment(f, g);
    SameCorrigendum(f, g);
  }

  lemma SameAmendment(f: Fields, g: Fields)
    requires forall a :: Rendered(a) ==> (a in f <==> a in g) && (a in f ==> f[a] == g[a])
    ensures AmendmentText(f) == AmendmentText(g)
  {
    assert Rendered(Amendment) && Rendered(AmendmentStage) && Rendered(AmendmentNumber) && Rendered(AmendmentVersion);
    assert SupplementHead(f, AmendmentStage) == SupplementHead(g, AmendmentStage);
    assert Text(f, AmendmentVersion) == Text(g, AmendmentVersion) && Text(f, AmendmentNumber) == Text(g, AmendmentNumber);
  }

  lemma SameCorrigendum(f: Fields, g: Fields)
    requires forall a :: Rendered(a) ==> (a in f <==> a in g) && (a in f ==> f[a] == g[a])
    ensures CorrigendumText(f) == CorrigendumText(g)
  {
    assert Rendered(Corrigendum) && Rendered(CorrigendumStage) && Rendered(CorrigendumNumber) && Rendered(CorrigendumVersion);
    assert SupplementHead(f, CorrigendumStage) == SupplementHead(g, CorrigendumStage);
    assert Text(f, CorrigendumVersion) == Text(g, CorrigendumVersion) && Text(f, CorrigendumNumber) == Text(g, CorrigendumNumber);
  }

  /** nil passed to `initialize` is stored as "", which Ruby treats as
      true: an explicit nil copublisher still adds "/" to the originator
      and turns the type and stage separators into spaces. */
  lemma NilCopublisherIsPresent(opts: map<Attr, Raw>, publisher: string)
    requires opts == map[Publisher := RStr(publisher), Copublisher := RNil]
    ensures OriginatorText(CoerceAll(opts)) == Ok(publisher + "/")
    ensures Separator(CoerceAll(opts)) == " "
  {
    var f := CoerceAll(opts);
    assert f[Copublisher] == Str("") && f[Publisher] == Str(publisher);
    assert MapToS(AsArray(Str(""))) == [""];
    assert Sort([""]) == Insert("", []) == [""];
    assert Segments([""], "/", '-', '/', false) == "/" + "" + "" == "/";
  }
}
