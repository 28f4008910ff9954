/**
 * The closed set of segment kinds a template is parsed into (the `ISegment`
 * implementations), the parser's syntax errors, and the template text a
 * segment list stands for.
 */
module Segments {

  datatype Segment =
    | TextSegment(text: string)
    | ParamSegment(param: string)
    | FormattedParamSegment(param: string, format: string)

  /** The three syntax errors; each carries the offset of the offending `{`. */
  datatype SyntaxError =
    | UnmatchedBrace(at: nat)
    | EmptyParameter(at: nat)
    | EmptyFormat(at: nat)

  /** The template text of one segment: a literal, `{param}` or `{param:format}`. */
  function Render(seg: Segment): string
  {
    match seg
    case TextSegment(t) => t
    case ParamSegment(p) => "{" + p + "}"
    case FormattedParamSegment(p, f) => "{" + p + ":" + f + "}"
  }

  /** The template text of a segment list, segments in order. */
  function Unparse(segs: seq<Segment>): string
  {
    if segs == [] then "" else Render(segs[0]) + Unparse(segs[1..])
  }

  lemma {:induction false} UnparseAppend(a: seq<Segment>, b: seq<Segment>)
    ensures Unparse(a + b) == Unparse(a) + Unparse(b)
  {
    if a == [] {
      assert a + b == b;
    } else {
      assert (a + b)[1..] == a[1..] + b;
      UnparseAppend(a[1..], b);
    }
  }

  /** The text of a segment list with one segment singled out. */
  lemma UnparseBrace(lead: seq<Segment>, x: Segment, rest: seq<Segment>)
    ensures Unparse(lead + [x] + rest) == Unparse(lead) + Render(x) + Unparse(rest)
  {
    UnparseAppend(lead + [x], rest);
    UnparseAppend(lead, [x]);
    UnparseOne(x);
  }

  lemma UnparseOne(x: Segment)
    ensures Unparse([x]) == Render(x)
  {
    assert [x][1..] == [];
    assert Render(x) + "" == Render(x);
  }

  /**
   * What the parser can emit for one segment: text is non-empty and holds no
   * `{`; a path is non-empty and holds neither `}` nor `:`; a format is
   * non-empty and holds no `}`.
   */
  predicate ValidSegment(seg: Segment)
  {
    match seg
    case TextSegment(t) => |t| > 0 && '{' !in t
    case ParamSegment(p) => |p| > 0 && '}' !in p && ':' !in p
    case FormattedParamSegment(p, f) => |p| > 0 && '}' !in p && ':' !in p && |f| > 0 && '}' !in f
  }

  /** Every segment valid and no two text segments next to each other. */
  predicate WellFormed(segs: seq<Segment>)
  {
    && (forall i :: 0 <= i < |segs| ==> ValidSegment(segs[i]))
    && (forall i :: 0 <= i < |segs| - 1 ==> !(segs[i].TextSegment? && segs[i + 1].TextSegment?))
  }
}
