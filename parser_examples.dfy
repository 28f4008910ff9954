/**
 * The default parser on templates without braces and on the templates the
 * integration tests feed it.
 */
module ParserExamples {
  import opened Wrappers
  import opened Strings
  import opened Segments
  import opened DefaultFormatParser
  import opened ParserProperties

  /** A template without `{` is one text segment holding all of it, or nothing when it is empty. */
  lemma NoBrace(s: string)
    requires '{' !in s
    ensures Parse(s) == if s == [] then ParseOutcome([], None) else ParseOutcome([TextSegment(s)], None)
  {
    if s != [] {
      NotInSlice(s, '{', 0, |s|);
      assert s[0..|s|] == s;
      IndexOfAbsent(s, '{', 0);
      ParseFromFinish(s, 0);
      assert s[0..] == s;
    }
  }

  /**
   * Without any `}` the first `{` is reported as unmatched, whether or not a
   * `:` follows it; the text before it has been pushed.
   */
  lemma NoClosingBrace(s: string)
    requires '{' in s && '}' !in s
    ensures var open := IndexOf(s, '{', 0);
      0 <= open && Parse(s) == ParseOutcome(Lead(s, 0, open), Some(UnmatchedBrace(open)))
  {
    var j :| 0 <= j < |s| && s[j] == '{';
    IndexOfIsFirst(s, '{', 0);
    NotInSlice(s, '}', 0, |s|);
    assert s[0..|s|] == s;
    var open := IndexOf(s, '{', 0);
    IndexOfAbsent(s, '}', open);
    ParseFromFail(s, 0, open, -1, IndexOf(s, ':', open), UnmatchedBrace(open));
  }

  /** `NoClosingBrace` with the first `{` at a known place. */
  lemma NoClosingBraceAt(s: string, k: nat)
    requires k < |s| && s[k] == '{' && (forall i :: 0 <= i < k ==> s[i] != '{') && '}' !in s
    ensures Parse(s) == ParseOutcome(Lead(s, 0, k), Some(UnmatchedBrace(k)))
  {
    IndexOfAt(s, '{', 0, k);
    NoClosingBrace(s);
  }

  /** The two templates of the unmatched-brace rows: "Hello, " then a `{` that is never closed. */
  lemma HelloShape(s: string)
    requires s == "Hello, {Name" || s == "Hello, {Name:something"
    ensures 7 < |s| && s[7] == '{' && (forall i :: 0 <= i < 7 ==> s[i] != '{') && '}' !in s
    ensures s[0..7] == "Hello, "
  {
  }

  lemma HelloUnmatched(s: string)
    requires s == "Hello, {Name"
    ensures Parse(s) == ParseOutcome([TextSegment("Hello, ")], Some(UnmatchedBrace(7)))
  {
    HelloShape(s);
    NoClosingBraceAt(s, 7);
  }

  lemma HelloUnmatchedWithFormat(s: string)
    requires s == "Hello, {Name:something"
    ensures Parse(s) == ParseOutcome([TextSegment("Hello, ")], Some(UnmatchedBrace(7)))
  {
    HelloShape(s);
    NoClosingBraceAt(s, 7);
  }

  lemma EmptyBraces(s: string)
    requires s == "{}"
    ensures Parse(s) == ParseOutcome([], Some(EmptyParameter(0)))
  {
    IndexOfAt(s, '}', 0, 1);
    IndexOfAbsent(s, ':', 0);
    IndexOfAt(s, '{', 0, 0);
    ParseFromFail(s, 0, 0, 1, -1, EmptyParameter(0));
  }

  lemma EmptyFormatAfterName(s: string)
    requires s == "{Name:}"
    ensures Parse(s) == ParseOutcome([], Some(EmptyFormat(0)))
  {
    IndexOfAt(s, '}', 0, 6);
    IndexOfAt(s, ':', 0, 5);
    IndexOfAt(s, '{', 0, 0);
    ParseFromFail(s, 0, 0, 6, 5, EmptyFormat(0));
  }

  lemma FormatWithoutName(s: string)
    requires s == ['{', ':'] + "something}"
    ensures Parse(s) == ParseOutcome([], Some(EmptyParameter(0)))
  {
    IndexOfAt(s, '}', 0, 11);
    IndexOfAt(s, ':', 0, 1);
    IndexOfAt(s, '{', 0, 0);
    ParseFromFail(s, 0, 0, 11, 1, EmptyParameter(0));
  }

  /** Both parts empty: the parameter is checked first. */
  lemma NameAndFormatEmpty(s: string)
    requires s == ['{', ':', '}']
    ensures Parse(s) == ParseOutcome([], Some(EmptyParameter(0)))
  {
    IndexOfAt(s, '}', 0, 2);
    IndexOfAt(s, ':', 0, 1);
    IndexOfAt(s, '{', 0, 0);
    ParseFromFail(s, 0, 0, 2, 1, EmptyParameter(0));
  }

  lemma TextAroundParameter(s: string)
    requires s == "No{Surname}space!"
    ensures Parse(s) == ParseOutcome([TextSegment("No"), ParamSegment("Surname"), TextSegment("space!")], None)
  {
    var a, n, b := "No", "Surname", "space!";
    var segs := [TextSegment(a), ParamSegment(n), TextSegment(b)];
    assert segs[1..] == [ParamSegment(n), TextSegment(b)] && segs[1..][1..] == [TextSegment(b)] && segs[1..][1..][1..] == [];
    assert Unparse(segs[1..][1..]) == b + "";
    assert Unparse(segs[1..]) == "{" + n + "}" + Unparse(segs[1..][1..]);
    assert Unparse(segs) == a + Unparse(segs[1..]);
    Spelled(s, a, n, b);
    UnparseParses(segs);
  }

  /** The template of the text-around-parameter row, in its three pieces. */
  lemma Spelled(s: string, a: string, n: string, b: string)
    requires s == "No{Surname}space!" && a == "No" && n == "Surname" && b == "space!"
    ensures s == a + ("{" + n + "}" + (b + ""))
  {
  }
}
