/** `Pubid::Iso::Renderer::Dir` (lib/pubid/iso/renderer/dir.rb): the
    directive template with its optional joint document, and the number,
    dirtype and supplement renderers. */
module DirRenderer {
  import opened RubyText
  import opened Template
  import opened BaseRenderer
  import SupplementRenderer

  /** `"%{publisher}%{copublisher} DIR%{dirtype}%{number}%{year}%{supplement}"`. */
  const MainTemplate: seq<Piece> :=
    [Ref(Publisher), Ref(Copublisher), Lit(" DIR"), Ref(Dirtype), Ref(Number), Ref(Year), Ref(Supplement)]

  /** `" + %{publisher}%{copublisher}%{dirtype}%{number}%{year}%{supplement}"`. */
  const JointTemplate: seq<Piece> :=
    [Lit(" + "), Ref(Publisher), Ref(Copublisher), Ref(Dirtype), Ref(Number), Ref(Year), Ref(Supplement)]

  /** The fields of a document in template order, after a head text. */
  function Fields(head: string, p: Params, dir: string): string {
    head + (Get(p, Publisher) + (Get(p, Copublisher) + (dir + (Get(p, Dirtype) + (Get(p, Number)
    + (Get(p, Year) + Get(p, Supplement)))))))
  }

  lemma MainInOrder(p: Params)
    ensures Format(MainTemplate, p) == Fields("", p, " DIR")
  {
    var t := MainTemplate;
    assert Format(t[6..], p) == Get(p, Supplement) + Format(t[7..], p);
    assert Format(t[5..], p) == Get(p, Year) + Format(t[6..], p);
    assert Format(t[4..], p) == Get(p, Number) + Format(t[5..], p);
    assert Format(t[3..], p) == Get(p, Dirtype) + Format(t[4..], p);
    assert Format(t[2..], p) == " DIR" + Format(t[3..], p);
    assert Format(t[1..], p) == Get(p, Copublisher) + Format(t[2..], p);
    assert Format(t, p) == Get(p, Publisher) + Format(t[1..], p);
    assert Format(t[7..], p) == "";
    var x := Get(p, Publisher) + (Get(p, Copublisher) + (" DIR" + (Get(p, Dirtype) + (Get(p, Number)
      + (Get(p, Year) + Get(p, Supplement))))));
    assert Format(t, p) == x;
    assert "" + x == x;
  }

  lemma JointInOrder(q: Params)
    ensures Format(JointTemplate, q) == Fields(" + ", q, "")
  {
    var t := JointTemplate;
    assert Format(t[6..], q) == Get(q, Supplement) + Format(t[7..], q);
    assert Format(t[5..], q) == Get(q, Year) + Format(t[6..], q);
    assert Format(t[4..], q) == Get(q, Number) + Format(t[5..], q);
    assert Format(t[3..], q) == Get(q, Dirtype) + Format(t[4..], q);
    assert Format(t[2..], q) == Get(q, Copublisher) + Format(t[3..], q);
    assert Format(t[1..], q) == Get(q, Publisher) + Format(t[2..], q);
    assert Format(t, q) == " + " + Format(t[1..], q);
    assert Format(t[7..], q) == "";
    assert "" + (Get(q, Dirtype) + (Get(q, Number) + (Get(q, Year) + Get(q, Supplement))))
      == Get(q, Dirtype) + (Get(q, Number) + (Get(q, Year) + Get(q, Supplement)));
  }

  /** The literal " DIR" belongs to the main document only; a joint
      document is introduced by " + ". */
  lemma JointHasNoDir()
    ensures Lit(" DIR") in MainTemplate && Lit(" DIR") !in JointTemplate
    ensures JointTemplate[0] == Lit(" + ") && forall i :: 1 <= i < |JointTemplate| ==> JointTemplate[i].Ref?
  {
  }

  /** `render_identifier`: the main template, then " + " and the joint
      document's fields when the params hold a joint document. The joint
      document is prerendered by Core's `prerender_params` (a parameter)
      with no options. */
  method RenderIdentifier<J>(p: Params, jointDocument: Option<J>, prerender: (J, Options) -> Params)
    returns (res: string)
    ensures jointDocument.None? ==> res == Fields("", p, " DIR")
    ensures jointDocument.Some? ==>
      res == Fields("", p, " DIR") + Fields(" + ", prerender(jointDocument.value, map[]), "")
    ensures |res| > |Fields("", p, " DIR")| <==> jointDocument.Some?
    ensures res[..|Fields("", p, " DIR")|] == Fields("", p, " DIR")
  {
    MainInOrder(p);
    res := Format(MainTemplate, p);
    if jointDocument.Some? {
      var jointParams := prerender(jointDocument.value, map[]);
      JointInOrder(jointParams);
      res := res + Format(JointTemplate, jointParams);
    }
  }

  /** `render_number` and `render_dirtype`: a space, then the value. */
  function RenderNumber(number: string): (r: string)
    ensures |r| == |number| + 1 && r[0] == ' ' && r[1..] == number
  {
    " " + number
  }

  function RenderDirtype(dirtype: string): (r: string)
    ensures |r| == |dirtype| + 1 && r[0] == ' ' && r[1..] == dirtype
  {
    " " + dirtype
  }

  /** The parts of a directive supplement `render_supplement` reads; None
      is nil. */
  datatype DirSupplement = DirSupplement(publisher: Option<string>, number: Option<string>, edition: Option<string>)

  /** " <publisher> SUP", or " SUP" for a nil or empty publisher. */
  function SupHead(publisher: Option<string>): (r: string)
    ensures publisher.None? || publisher.value == "" ==> r == " SUP"
    ensures publisher.Some? && publisher.value != "" ==>
      |r| == |publisher.value| + 5 && r[0] == ' ' && r[1..|r| - 4] == publisher.value && r[|r| - 4..] == " SUP"
  {
    if publisher.Some? && publisher.value != "" then " " + publisher.value + " SUP" else " SUP"
  }

  /** The optional affixes, "" when the value is nil. */
  function Affix(before: string, value: Option<string>): (r: string)
    ensures value.None? ==> r == ""
    ensures value.Some? ==> |r| == |before| + |value.value| && r[..|before|] == before && r[|before|..] == value.value
  {
    if value.Some? then before + value.value else ""
  }

  /** `render_supplement`: the head, ":" and the number when there is one,
      " Edition " and the edition when there is one. */
  function RenderSupplement(s: DirSupplement): (r: string)
    ensures r == SupHead(s.publisher) + Affix(":", s.number) + Affix(" Edition ", s.edition)
    ensures |r| >= 4 && (s.publisher.None? || s.publisher.value == "") ==> r[..4] == " SUP"
  {
    SupHead(s.publisher) + Affix(":", s.number) + Affix(" Edition ", s.edition)
  }

  /** An empty publisher renders like none at all. */
  lemma EmptyPublisherIsNone(number: Option<string>, edition: Option<string>)
    ensures RenderSupplement(DirSupplement(Some(""), number, edition))
      == RenderSupplement(DirSupplement(None, number, edition))
  {
  }

  /** Edition wording is shared with the supplement renderer. */
  lemma EditionAsSupplementRenderer(edition: string, opts: Options)
    requires Truthy(opts, "with_edition")
    ensures Some(Affix(" Edition ", Some(edition))) == SupplementRenderer.RenderEdition(edition, opts)
  {
  }
}
