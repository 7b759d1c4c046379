/** Ruby's named-reference formatting, `"%{type}%{stage} DIR" % params`, as
    the renderers use it: every `%{slot}` is replaced by the prerendered text
    stored under that slot, and a slot the params do not hold renders as ""
    (the renderers set `params.default = ""` before formatting). */
module Template {

  /** The keys of a prerendered parameter table. */
  datatype Slot =
    | Publisher | Copublisher | Type | Stage | TypedStage | Number | Part
    | Iteration | Year | Edition | Amendments | Corrigendums | Language
    | CorrigendumStage | Dirtype | Supplement

  type Params = map<Slot, string>

  /** `params[slot]` on a Hash whose default is "". */
  function Get(p: Params, s: Slot): string {
    if s in p then p[s] else ""
  }

  /** One piece of a format string: literal text, or a `%{slot}` reference. */
  datatype Piece = Lit(text: string) | Ref(slot: Slot)

  /** `template % params`. */
  function Format(t: seq<Piece>, p: Params): string {
    if t == [] then ""
    else
      (match t[0]
       case Lit(text) => text
       case Ref(s) => Get(p, s))
      + Format(t[1..], p)
  }

  /** The slots a template refers to. */
  function Refs(t: seq<Piece>): set<Slot> {
    if t == [] then {} else (if t[0].Ref? then {t[0].slot} else {}) + Refs(t[1..])
  }

  /** The template with every reference rendered as "". */
  function Literals(t: seq<Piece>): string {
    if t == [] then "" else (if t[0].Lit? then t[0].text else "") + Literals(t[1..])
  }

  /** The text one piece contributes. */
  function PieceText(x: Piece, p: Params): string {
    match x
    case Lit(text) => text
    case Ref(s) => Get(p, s)
  }

  /** A template renders as its first piece's text followed by the rest. */
  lemma FormatHead(t: seq<Piece>, p: Params, rest: string)
    requires t != [] && Format(t[1..], p) == rest
    ensures Format(t, p) == PieceText(t[0], p) + rest
  {
  }

  /** Formatting a concatenated template concatenates the two renderings. */
  lemma {:induction false} FormatAppend(t1: seq<Piece>, t2: seq<Piece>, p: Params)
    ensures Format(t1 + t2, p) == Format(t1, p) + Format(t2, p)
  {
    if t1 == [] {
      assert t1 + t2 == t2;
    } else {
      assert (t1 + t2)[0] == t1[0] && (t1 + t2)[1..] == t1[1..] + t2;
      FormatAppend(t1[1..], t2, p);
    }
  }

  /** Only the slots the template refers to matter: two tables that agree on
      them give the same text. */
  lemma {:induction false} FormatReadsOnlyRefs(t: seq<Piece>, p: Params, q: Params)
    requires forall s :: s in Refs(t) ==> Get(p, s) == Get(q, s)
    ensures Format(t, p) == Format(t, q)
  {
    if t != [] {
      FormatReadsOnlyRefs(t[1..], p, q);
    }
  }

  /** With none of its slots set, a template renders as its literal text. */
  lemma {:induction false} FormatWithoutValues(t: seq<Piece>, p: Params)
    requires forall s :: s in Refs(t) ==> s !in p
    ensures Format(t, p) == Literals(t)
  {
    if t != [] {
      FormatWithoutValues(t[1..], p);
    }
  }
}
