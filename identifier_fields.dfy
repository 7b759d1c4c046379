/** The attribute table shared by `Pubid::Iso::Identifier` and
    `Pubid::Iso::Urn`: instance variables named by `attr_accessor`, the Ruby
    values they hold, how those values interpolate into strings, and the
    exceptions rendering can raise. */
module IdentifierFields {
  import opened RubyText

  /** The accessors both classes declare (lib/pubid/iso/identifier.rb:4-8). */
  datatype Attr =
    | Number | Publisher | Copublisher | Stage | Substage | Part | Type | Year
    | Edition | Iteration | Supplements | Language
    | Amendment | AmendmentVersion | AmendmentNumber
    | Corrigendum | CorrigendumVersion | CorrigendumNumber
    | AmendmentStage | CorrigendumStage

  /** A stored value: a String, or an Array (the repeated-key merge builds
      arrays, possibly nested). */
  datatype Value = Str(s: string) | Arr(items: seq<Value>)

  /** The instance-variable table: a key is present exactly when the
      variable was assigned. */
  type Fields = map<Attr, Value>

  /** The exceptions the renderers can raise. */
  datatype Failure =
    | NilReceiver(call: string)   // NoMethodError: `call` sent to nil
    | NoSuchMethod(call: string)  // NoMethodError or TypeError: an Array where a String is needed
    | UnknownStage(stage: string)   // STAGES has no entry: sprintf of nil raises TypeError
    | NilArgument(format: string)   // TypeError: nil formatted with a numeric directive
    | WrongArity(call: string, given: nat, expected: nat)  // ArgumentError: wrong number of arguments

  datatype Result<+T> = Ok(value: T) | Err(failure: Failure)

  /** `Array#inspect` / `String#inspect`, which is also `Array#to_s`
      (escaping of quotes and control characters inside strings is not
      modelled). */
  function Inspect(v: Value): string
    decreases v
  {
    match v
    case Str(s) => "\"" + s + "\""
    case Arr(items) => "[" + InspectAll(items) + "]"
  }

  function InspectAll(items: seq<Value>): string
    decreases items
  {
    if items == [] then ""
    else if |items| == 1 then Inspect(items[0])
    else Inspect(items[0]) + ", " + InspectAll(items[1..])
  }

  /** `"#{v}"`: a String interpolates as itself, an Array as its inspect
      form. */
  function ToS(v: Value): (r: string)
    ensures v.Str? ==> r == v.s
    ensures v.Arr? ==> |r| >= 2 && r[0] == '[' && r[|r| - 1] == ']'
  {
    match v
    case Str(s) => s
    case Arr(_) => Inspect(v)
  }

  /** `"#{@a}"`: "" for an unassigned variable (nil interpolates as ""). */
  function Text(f: Fields, a: Attr): string {
    if a in f then ToS(f[a]) else ""
  }

  function MapToS(vs: seq<Value>): (r: seq<string>)
    ensures |r| == |vs|
    ensures forall k :: 0 <= k < |vs| ==> r[k] == ToS(vs[k])
  {
    if vs == [] then [] else [ToS(vs[0])] + MapToS(vs[1..])
  }

  /** `@copublisher = [@copublisher] unless @copublisher.is_a?(Array)`. */
  function AsArray(v: Value): (r: seq<Value>)
    ensures v.Arr? ==> r == v.items
    ensures v.Str? ==> r == [v]
  {
    match v
    case Arr(items) => items
    case Str(_) => [v]
  }

  /** The table after `originator` has rewritten a single copublisher into
      a one-element array; nothing else changes. */
  function WrapCopublisher(f: Fields): (g: Fields)
    ensures g.Keys == f.Keys
    ensures forall a :: a in f && a != Copublisher ==> g[a] == f[a]
    ensures Copublisher in f ==> g[Copublisher] == Arr(AsArray(f[Copublisher]))
  {
    if Copublisher in f then f[Copublisher := Arr(AsArray(f[Copublisher]))] else f
  }

  /** Wrapping is done once: a wrapped table wraps to itself. */
  lemma WrapCopublisherIdempotent(f: Fields)
    ensures WrapCopublisher(WrapCopublisher(f)) == WrapCopublisher(f)
  {
  }

  /** The copublisher segments of an originator: for each name in turn,
      `prefix`, then the name (lower-cased when `lower`) with `from`
      replaced by `to`. */
  function Segments(names: seq<string>, prefix: string, from: char, to: char, lower: bool): (r: string)
    ensures names == [] ==> r == ""
  {
    if names == [] then ""
    else prefix + Gsub(if lower then Downcase(names[0]) else names[0], from, to)
         + Segments(names[1..], prefix, from, to, lower)
  }

  /** The copublisher names in sorted order, as `originator` sorts them
      (sorting the `to_s` forms, before any rewriting). */
  function SortedCopublishers(v: Value): (r: seq<string>)
    ensures Sorted(r) && multiset(r) == multiset(MapToS(AsArray(v)))
  {
    Sort(MapToS(AsArray(v)))
  }

  /** A single copublisher and the one-element array holding it give the
      same sorted list, so the in-place rewrite never changes an
      originator. */
  lemma SortedCopublishersWrap(v: Value)
    ensures SortedCopublishers(Arr(AsArray(v))) == SortedCopublishers(v)
  {
  }

  /** Copublisher arrays holding the same names in any order sort alike. */
  lemma SortedCopublishersOrderIndependent(xs: seq<Value>, ys: seq<Value>)
    requires multiset(MapToS(xs)) == multiset(MapToS(ys))
    ensures SortedCopublishers(Arr(xs)) == SortedCopublishers(Arr(ys))
  {
    SortOrderIndependent(MapToS(xs), MapToS(ys));
  }
}
