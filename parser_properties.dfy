/**
 * What the scan of `DefaultFormatParser` guarantees: on success the segments
 * are well formed and spell the template back; on failure the segments pushed
 * spell the text before the offending `{`; and every well-formed segment list
 * is parsed back from its own text.
 */
module ParserProperties {
  import opened Wrappers
  import opened Strings
  import opened Segments
  import opened DefaultFormatParser

  /**
   * The outcome `r` of a scan from `ptr` accounts for the template: without an
   * error its segments spell `s[ptr..]`; with one, they spell the text up to
   * the `{` the error names.
   */
  predicate Reproduces(s: string, ptr: nat, r: ParseOutcome)
    requires ptr <= |s|
  {
    var end := Reach(s, r);
    && ptr <= end <= |s|
    && Unparse(r.segments) == s[ptr..end]
    && (r.error.Some? ==> end < |s| && s[end] == '{' && ErrorShape(s, r.error.value))
  }

  /**
   * What the template looks like at the `{` an error names: an unmatched
   * brace has no `}` anywhere after it; an empty parameter has a `}`, or a
   * `:` and later a `}`, right after it; an empty format has a non-empty
   * parameter, free of `}`, up to the first `:`, and the `}` right after that `:`.
   */
  predicate ErrorShape(s: string, e: SyntaxError)
  {
    var k := e.at;
    k < |s| &&
    match e
    case UnmatchedBrace(_) => '}' !in s[k..]
    case EmptyParameter(_) => k + 1 < |s| && (s[k + 1] == '}' || (s[k + 1] == ':' && '}' in s[k + 2..]))
    case EmptyFormat(_) =>
      var c := IndexOf(s, ':', k);
      k + 1 < c < |s| - 1 && s[c + 1] == '}' && '}' !in s[k + 1..c]
  }

  /** The shape of the template at a brace the scan rejects. */
  lemma FailShape(s: string, ptr: nat, open: int, close: int, colon: int, e: SyntaxError)
    requires ptr < |s| && open == IndexOf(s, '{', ptr) && open != -1
    requires close == IndexOf(s, '}', open) && colon == IndexOf(s, ':', open)
    requires if colon != -1 && colon < close then
               if |s[open + 1..colon]| == 0 then e == EmptyParameter(open)
               else |s[colon + 1..close]| == 0 && e == EmptyFormat(open)
             else if close != -1 then |s[open + 1..close]| == 0 && e == EmptyParameter(open)
             else e == UnmatchedBrace(open)
    ensures ErrorShape(s, e)
  {
    IndexOfIsFirst(s, '}', open);
    if e.UnmatchedBrace? {
      NotInSlice(s, '}', open, |s|);
      assert s[open..] == s[open..|s|];
    } else if e.EmptyParameter? && colon != -1 && colon < close {
      assert s[open + 2..][close - open - 2] == s[close];
    } else if e.EmptyFormat? {
      NotInSlice(s, '}', open + 1, colon);
    }
  }

  /** How far into the template an outcome accounts for: the end, or the `{` its error names. */
  function Reach(s: string, r: ParseOutcome): int
  {
    if r.error.None? then |s| else r.error.value.at
  }

  /** The text of a `{param}` brace, read back from the template. */
  lemma ParamText(s: string, open: nat, close: nat)
    requires open < close < |s| && s[open] == '{' && s[close] == '}'
    ensures s[open..close + 1] == Render(ParamSegment(s[open + 1..close]))
  {
    assert s[open..close + 1] == [s[open]] + s[open + 1..close] + [s[close]];
  }

  /** The text of a `{param:format}` brace, read back from the template. */
  lemma FormattedText(s: string, open: nat, colon: nat, close: nat)
    requires open < colon < close < |s| && s[open] == '{' && s[colon] == ':' && s[close] == '}'
    ensures s[open..close + 1] == Render(FormattedParamSegment(s[open + 1..colon], s[colon + 1..close]))
  {
    assert s[open..close + 1] == [s[open]] + s[open + 1..colon] + [s[colon]] + s[colon + 1..close] + [s[close]];
  }

  /** The text before a brace, then a brace, then a well-formed rest: well formed. */
  lemma WellFormedJoin(lead: seq<Segment>, x: Segment, rest: seq<Segment>)
    requires lead == [] || (|lead| == 1 && lead[0].TextSegment? && ValidSegment(lead[0]))
    requires ValidSegment(x) && !x.TextSegment?
    requires WellFormed(rest)
    ensures WellFormed(lead + [x] + rest)
  {
    var all := lead + [x] + rest;
    forall i | 0 <= i < |all|
      ensures ValidSegment(all[i])
    {
      if i < |lead| { assert all[i] == lead[i]; }
      else if i == |lead| { assert all[i] == x; }
      else { assert all[i] == rest[i - |lead| - 1]; }
    }
    forall i | 0 <= i < |all| - 1
      ensures !(all[i].TextSegment? && all[i + 1].TextSegment?)
    {
      if i + 1 == |lead| { assert all[i + 1] == x; }
      else if i == |lead| { assert all[i] == x; }
      else if i > |lead| { assert all[i] == rest[i - |lead| - 1] && all[i + 1] == rest[i - |lead|]; }
    }
  }

  /** The text before a brace, as `Lead` pushes it, spells that text and is a valid text segment. */
  lemma LeadFacts(s: string, ptr: nat, open: nat)
    requires ptr <= open < |s| && open == IndexOf(s, '{', ptr)
    ensures Unparse(Lead(s, ptr, open)) == s[ptr..open]
    ensures var lead := Lead(s, ptr, open);
            lead == [] || (|lead| == 1 && lead[0].TextSegment? && ValidSegment(lead[0]))
  {
    IndexOfIsFirst(s, '{', ptr);
    NotInSlice(s, '{', ptr, open);
    if open - ptr != 0 {
      assert Unparse([TextSegment(s[ptr..open])]) == s[ptr..open] + Unparse([]);
    }
  }

  /** Three adjacent slices of a string make up the slice that spans them. */
  lemma Slices3(s: string, a: nat, b: nat, c: nat, d: nat, u: string, v: string, w: string)
    requires a <= b <= c <= d <= |s|
    requires u == s[a..b] && v == s[b..c] && w == s[c..d]
    ensures u + v + w == s[a..d]
  {
    SliceSplit(s, a, b, c);
    SliceSplit(s, a, c, d);
  }

  /** A brace segment followed by a scan that reproduces its part: the whole reproduces. */
  lemma ReproducesJoin(s: string, ptr: nat, open: nat, close: nat, lead: seq<Segment>, x: Segment, rest: ParseOutcome)
    requires ptr <= open < close < |s|
    requires Unparse(lead) == s[ptr..open] && Render(x) == s[open..close + 1]
    requires Reproduces(s, close + 1, rest)
    ensures Reproduces(s, ptr, Prefixed(lead + [x], rest))
  {
    var end := Reach(s, rest);
    UnparseBrace(lead, x, rest.segments);
    Slices3(s, ptr, open, close + 1, end, Unparse(lead), Render(x), Unparse(rest.segments));
  }

  /** The scan's property at a cursor, gathered in one predicate. */
  predicate SoundAt(s: string, ptr: nat)
    requires ptr <= |s|
  {
    WellFormed(ParseFrom(s, ptr).segments) && Reproduces(s, ptr, ParseFrom(s, ptr))
  }

  /** The brace of a formatted parameter as the scan cuts it out: valid, and spelling its text. */
  lemma FormattedFacts(s: string, ptr: nat, open: int, close: int, colon: int)
    requires ptr < |s| && open == IndexOf(s, '{', ptr) && open != -1
    requires close == IndexOf(s, '}', open) && colon == IndexOf(s, ':', open)
    requires colon != -1 && colon < close
    requires |s[open + 1..colon]| != 0 && |s[colon + 1..close]| != 0
    ensures var x := FormattedParamSegment(s[open + 1..colon], s[colon + 1..close]);
            ValidSegment(x) && Render(x) == s[open..close + 1]
  {
    IndexOfIsFirst(s, '}', open);
    IndexOfIsFirst(s, ':', open);
    NotInSlice(s, ':', open + 1, colon);
    NotInSlice(s, '}', open + 1, colon);
    NotInSlice(s, '}', colon + 1, close);
    FormattedText(s, open, colon, close);
  }

  /** The brace of a plain parameter as the scan cuts it out: valid, and spelling its text. */
  lemma ParamFacts(s: string, ptr: nat, open: int, close: int, colon: int)
    requires ptr < |s| && open == IndexOf(s, '{', ptr) && open != -1
    requires close == IndexOf(s, '}', open) && colon == IndexOf(s, ':', open)
    requires !(colon != -1 && colon < close) && close != -1
    requires |s[open + 1..close]| != 0
    ensures var x := ParamSegment(s[open + 1..close]);
            ValidSegment(x) && Render(x) == s[open..close + 1]
  {
    IndexOfIsFirst(s, '}', open);
    IndexOfIsFirst(s, ':', open);
    NotInSlice(s, ':', open + 1, close);
    NotInSlice(s, '}', open + 1, close);
    ParamText(s, open, close);
  }

  /** An iteration that pushes the text before `open` and brace `x`, followed by a sound scan: sound. */
  lemma {:induction false} SoundJoin(s: string, ptr: nat, open: int, close: int, x: Segment)
    requires ptr <= open < close < |s| && open == IndexOf(s, '{', ptr)
    requires ValidSegment(x) && !x.TextSegment? && Render(x) == s[open..close + 1]
    requires ParseFrom(s, ptr) == Pending(Lead(s, ptr, open) + [x], s, close + 1)
    ensures SoundAt(s, ptr)
    decreases |s| - ptr, 0
  {
    ParseFromSound(s, close + 1);
    LeadFacts(s, ptr, open);
    WellFormedJoin(Lead(s, ptr, open), x, ParseFrom(s, close + 1).segments);
    ReproducesJoin(s, ptr, open, close, Lead(s, ptr, open), x, ParseFrom(s, close + 1));
  }

  /** A formatted parameter followed by a sound scan: sound. */
  lemma {:induction false} SoundFormatted(s: string, ptr: nat, open: int, close: int, colon: int)
    requires ptr < |s| && open == IndexOf(s, '{', ptr) && open != -1
    requires close == IndexOf(s, '}', open) && colon == IndexOf(s, ':', open)
    requires colon != -1 && colon < close
    requires |s[open + 1..colon]| != 0 && |s[colon + 1..close]| != 0
    ensures SoundAt(s, ptr)
    decreases |s| - ptr, 1
  {
    ParseFromFormatted(s, ptr, open, close, colon);
    FormattedFacts(s, ptr, open, close, colon);
    SoundJoin(s, ptr, open, close, FormattedParamSegment(s[open + 1..colon], s[colon + 1..close]));
  }

  /** A plain parameter followed by a sound scan: sound. */
  lemma {:induction false} SoundParam(s: string, ptr: nat, open: int, close: int, colon: int)
    requires ptr < |s| && open == IndexOf(s, '{', ptr) && open != -1
    requires close == IndexOf(s, '}', open) && colon == IndexOf(s, ':', open)
    requires !(colon != -1 && colon < close) && close != -1
    requires |s[open + 1..close]| != 0
    ensures SoundAt(s, ptr)
    decreases |s| - ptr, 1
  {
    ParseFromParam(s, ptr, open, close, colon);
    ParamFacts(s, ptr, open, close, colon);
    SoundJoin(s, ptr, open, close, ParamSegment(s[open + 1..close]));
  }

  /** Trailing text: sound. */
  lemma SoundFinish(s: string, ptr: nat)
    requires ptr < |s| && IndexOf(s, '{', ptr) == -1
    ensures SoundAt(s, ptr)
  {
    ParseFromFinish(s, ptr);
    IndexOfIsFirst(s, '{', ptr);
    NotInSlice(s, '{', ptr, |s|);
    assert s[ptr..] == s[ptr..|s|];
    UnparseOne(TextSegment(s[ptr..]));
  }

  /** An iteration that throws: sound. */
  lemma SoundFail(s: string, ptr: nat, open: int, close: int, colon: int, e: SyntaxError)
    requires ptr < |s| && open == IndexOf(s, '{', ptr) && open != -1
    requires close == IndexOf(s, '}', open) && colon == IndexOf(s, ':', open)
    requires if colon != -1 && colon < close then
               if |s[open + 1..colon]| == 0 then e == EmptyParameter(open)
               else |s[colon + 1..close]| == 0 && e == EmptyFormat(open)
             else if close != -1 then |s[open + 1..close]| == 0 && e == EmptyParameter(open)
             else e == UnmatchedBrace(open)
    ensures SoundAt(s, ptr)
  {
    ParseFromFail(s, ptr, open, close, colon, e);
    FailShape(s, ptr, open, close, colon, e);
    LeadFacts(s, ptr, open);
    IndexOfIsFirst(s, '{', ptr);
    var lead := Lead(s, ptr, open);
    assert WellFormed(lead);
  }

  /**
   * The scan from any cursor yields well-formed segments that reproduce the
   * template from that cursor: all of it on success, up to the failing `{` otherwise.
   */
  lemma {:induction false} ParseFromSound(s: string, ptr: nat)
    requires ptr <= |s|
    ensures SoundAt(s, ptr)
    decreases |s| - ptr, 3
  {
    if ptr < |s| {
      var open := IndexOf(s, '{', ptr);
      if open == -1 {
        SoundFinish(s, ptr);
      } else {
        SoundBrace(s, ptr, open);
      }
    }
  }

  /** The scan from a cursor whose next `{` is at `open`: sound, given the scan after the brace is. */
  lemma {:induction false} SoundBrace(s: string, ptr: nat, open: int)
    requires ptr < |s| && open == IndexOf(s, '{', ptr) && open != -1
    ensures SoundAt(s, ptr)
    decreases |s| - ptr, 2
  {
    var close := IndexOf(s, '}', open);
    var colon := IndexOf(s, ':', open);
    if colon != -1 && colon < close {
      if |s[open + 1..colon]| == 0 {
        SoundFail(s, ptr, open, close, colon, EmptyParameter(open));
      } else if |s[colon + 1..close]| == 0 {
        SoundFail(s, ptr, open, close, colon, EmptyFormat(open));
      } else {
        SoundFormatted(s, ptr, open, close, colon);
      }
    } else if close != -1 {
      if |s[open + 1..close]| == 0 {
        SoundFail(s, ptr, open, close, colon, EmptyParameter(open));
      } else {
        SoundParam(s, ptr, open, close, colon);
      }
    } else {
      SoundFail(s, ptr, open, close, colon, UnmatchedBrace(open));
    }
  }

  /**
   * A successful parse yields well-formed segments that spell the template;
   * a failed one leaves pushed exactly the segments of the text before the
   * offending `{`.
   */
  lemma ParseSound(s: string)
    ensures WellFormed(Parse(s).segments)
    ensures Parse(s).error == None ==> Unparse(Parse(s).segments) == s
    ensures Parse(s).error.Some? ==>
              var k := Parse(s).error.value.at;
              k < |s| && s[k] == '{' && Unparse(Parse(s).segments) == s[..k] && ErrorShape(s, Parse(s).error.value)
  {
    ParseFromSound(s, 0);
    assert s[0..|s|] == s;
  }

  /** Where the scan's searches land for a valid `{param}` written at `open`. */
  lemma ParamIndices(s: string, ptr: nat, open: nat, p: string)
    requires ptr <= open && open + |p| + 2 <= |s|
    requires IndexOf(s, '{', ptr) == open
    requires |p| > 0 && '}' !in p && ':' !in p
    requires s[open] == '{' && s[open + 1..open + 1 + |p|] == p && s[open + 1 + |p|] == '}'
    ensures IndexOf(s, '}', open) == open + 1 + |p|
    ensures var colon := IndexOf(s, ':', open); !(colon != -1 && colon < open + 1 + |p|)
  {
    var close := open + 1 + |p|;
    NotInSlice(s, '}', open + 1, close);
    NotInSlice(s, ':', open + 1, close);
    IndexOfAt(s, '}', open, close);
    IndexOfIsFirst(s, ':', open);
  }

  /** A valid `{param}` at `open` with no `{` before it from the cursor: pushed as written. */
  lemma ParamParses(s: string, ptr: nat, open: nat, p: string, next: nat)
    requires ptr <= open && next == open + |p| + 2 <= |s|
    requires IndexOf(s, '{', ptr) == open
    requires |p| > 0 && '}' !in p && ':' !in p
    requires s[open] == '{' && s[open + 1..open + 1 + |p|] == p && s[open + 1 + |p|] == '}'
    ensures ParseFrom(s, ptr) == Pending(Lead(s, ptr, open) + [ParamSegment(p)], s, next)
  {
    ParamIndices(s, ptr, open, p);
    ParseFromParam(s, ptr, open, open + 1 + |p|, IndexOf(s, ':', open));
  }

  /** Where the scan's searches land for a valid `{param:format}` written at `open`. */
  lemma FormattedIndices(s: string, ptr: nat, open: nat, p: string, f: string)
    requires ptr <= open && open + |p| + |f| + 3 <= |s|
    requires IndexOf(s, '{', ptr) == open
    requires |p| > 0 && '}' !in p && ':' !in p && |f| > 0 && '}' !in f
    requires s[open] == '{' && s[open + 1..open + 1 + |p|] == p && s[open + 1 + |p|] == ':'
    requires s[open + 2 + |p|..open + 2 + |p| + |f|] == f && s[open + 2 + |p| + |f|] == '}'
    ensures IndexOf(s, ':', open) == open + 1 + |p|
    ensures IndexOf(s, '}', open) == open + 2 + |p| + |f|
  {
    var colon := open + 1 + |p|;
    var close := colon + 1 + |f|;
    NotInSlice(s, '}', open + 1, colon);
    NotInSlice(s, ':', open + 1, colon);
    NotInSlice(s, '}', colon + 1, close);
    IndexOfAt(s, ':', open, colon);
    IndexOfAt(s, '}', open, close);
  }

  /** A valid `{param:format}` at `open` with no `{` before it from the cursor: pushed as written. */
  lemma FormattedParses(s: string, ptr: nat, open: nat, p: string, f: string, next: nat)
    requires ptr <= open && next == open + |p| + |f| + 3 <= |s|
    requires IndexOf(s, '{', ptr) == open
    requires |p| > 0 && '}' !in p && ':' !in p && |f| > 0 && '}' !in f
    requires s[open] == '{' && s[open + 1..open + 1 + |p|] == p && s[open + 1 + |p|] == ':'
    requires s[open + 2 + |p|..open + 2 + |p| + |f|] == f && s[open + 2 + |p| + |f|] == '}'
    ensures ParseFrom(s, ptr)
         == Pending(Lead(s, ptr, open) + [FormattedParamSegment(p, f)], s, next)
  {
    FormattedIndices(s, ptr, open, p, f);
    ParseFromFormatted(s, ptr, open, open + 2 + |p| + |f|, open + 1 + |p|);
  }

  /** Where a segment's text is written at `open`, its characters can be read off one by one. */
  lemma RenderedAt(s: string, open: nat, x: Segment)
    requires !x.TextSegment? && open + |Render(x)| <= |s| && s[open..open + |Render(x)|] == Render(x)
    ensures s[open] == '{' && s[open + 1..open + 1 + |x.param|] == x.param
    ensures x.ParamSegment? ==> s[open + 1 + |x.param|] == '}'
    ensures x.FormattedParamSegment? ==>
              && s[open + 1 + |x.param|] == ':'
              && s[open + 2 + |x.param|..open + 2 + |x.param| + |x.format|] == x.format
              && s[open + 2 + |x.param| + |x.format|] == '}'
  {
    if x.ParamSegment? {
      ParamRenderedAt(s, open, x.param);
    } else {
      FormattedRenderedAt(s, open, x.param, x.format);
    }
  }

  lemma ParamRenderedAt(s: string, open: nat, p: string)
    requires open + |p| + 2 <= |s| && s[open..open + |p| + 2] == "{" + p + "}"
    ensures s[open] == '{' && s[open + 1..open + 1 + |p|] == p && s[open + 1 + |p|] == '}'
  {
    var w := s[open..open + |p| + 2];
    assert s[open] == w[0];
    assert s[open + 1 + |p|] == w[|p| + 1];
    assert forall i :: 0 <= i < |p| ==> s[open + 1 + i] == w[1 + i] == p[i];
  }

  lemma FormattedRenderedAt(s: string, open: nat, p: string, f: string)
    requires open + |p| + |f| + 3 <= |s| && s[open..open + |p| + |f| + 3] == "{" + p + ":" + f + "}"
    ensures s[open] == '{' && s[open + 1..open + 1 + |p|] == p && s[open + 1 + |p|] == ':'
    ensures s[open + 2 + |p|..open + 2 + |p| + |f|] == f && s[open + 2 + |p| + |f|] == '}'
  {
    var w := s[open..open + |p| + |f| + 3];
    assert s[open] == w[0];
    assert s[open + 1 + |p|] == w[|p| + 1];
    assert s[open + 2 + |p| + |f|] == w[|p| + |f| + 2];
    assert forall i :: 0 <= i < |p| ==> s[open + 1 + i] == w[1 + i] == p[i];
    assert forall i :: 0 <= i < |f| ==> s[open + 2 + |p| + i] == w[2 + |p| + i] == f[i];
  }

  /** A valid brace segment written at `open`: the iteration pushes the text before it and the segment. */
  lemma BraceParses(s: string, ptr: nat, open: nat, x: Segment)
    requires ptr <= open && open + |Render(x)| <= |s|
    requires IndexOf(s, '{', ptr) == open
    requires ValidSegment(x) && !x.TextSegment?
    requires s[open..open + |Render(x)|] == Render(x)
    ensures Outcome(s, ptr) == Pending(Lead(s, ptr, open) + [x], s, open + |Render(x)|)
  {
    RenderedAt(s, open, x);
    var next := open + |Render(x)|;
    if x.ParamSegment? {
      ParamParses(s, ptr, open, x.param, next);
    } else {
      FormattedParses(s, ptr, open, x.param, x.format, next);
    }
  }

  /** A well-formed list without its first segment is still well formed. */
  lemma WellFormedTail(segs: seq<Segment>, k: nat)
    requires WellFormed(segs) && k <= |segs|
    ensures WellFormed(segs[k..])
  {
    var tail := segs[k..];
    assert forall i :: 0 <= i < |tail| ==> tail[i] == segs[k + i];
  }

  /** The text of a list that starts with a brace segment, as the scan meets it. */
  lemma BraceFirst(s: string, ptr: nat, segs: seq<Segment>)
    requires ptr <= |s| && s[ptr..] == Unparse(segs)
    requires WellFormed(segs) && |segs| > 0 && !segs[0].TextSegment?
    ensures ValidSegment(segs[0]) && ptr + |Render(segs[0])| <= |s|
    ensures s[ptr..ptr + |Render(segs[0])|] == Render(segs[0])
    ensures s[ptr + |Render(segs[0])|..] == Unparse(segs[1..]) && WellFormed(segs[1..])
    ensures IndexOf(s, '{', ptr) == ptr
  {
    var x := segs[0];
    assert s[ptr..] == Render(x) + Unparse(segs[1..]);
    assert s[ptr] == Render(x)[0];
    WellFormedTail(segs, 1);
  }

  /** A suffix of the template made of three pieces: where each piece is found. */
  lemma SuffixPieces(s: string, ptr: nat, a: string, b: string, c: string)
    requires ptr <= |s| && s[ptr..] == a + (b + c)
    ensures ptr + |a| + |b| <= |s|
    ensures s[ptr..ptr + |a|] == a && s[ptr + |a|..ptr + |a| + |b|] == b && s[ptr + |a| + |b|..] == c
  {
    var w := s[ptr..];
    assert forall i :: 0 <= i < |a| ==> s[ptr + i] == w[i] == a[i];
    assert forall i :: 0 <= i < |b| ==> s[ptr + |a| + i] == w[|a| + i] == b[i];
    assert forall i :: 0 <= i < |c| ==> s[ptr + |a| + |b| + i] == w[|a| + |b| + i] == c[i];
  }

  /** Brace text at `open` after `{`-free text from the cursor: the scan's first `{` is at `open`. */
  lemma FirstBraceAt(s: string, ptr: nat, open: nat, r: string)
    requires ptr <= open && open + |r| <= |s| && '{' !in s[ptr..open]
    requires s[open..open + |r|] == r && |r| > 0 && r[0] == '{'
    ensures IndexOf(s, '{', ptr) == open
  {
    NotInSlice(s, '{', ptr, open);
    assert s[open] == s[open..open + |r|][0];
    IndexOfAt(s, '{', ptr, open);
  }

  /** The text of a list that starts with text and then a brace segment, as the scan meets it. */
  lemma TextThenBrace(s: string, ptr: nat, segs: seq<Segment>)
    requires ptr <= |s| && s[ptr..] == Unparse(segs)
    requires WellFormed(segs) && |segs| > 1 && segs[0].TextSegment?
    ensures ValidSegment(segs[1]) && !segs[1].TextSegment?
    ensures var open := ptr + |segs[0].text|;
            && open + |Render(segs[1])| <= |s|
            && s[ptr..open] == segs[0].text && open - ptr != 0
            && IndexOf(s, '{', ptr) == open
            && s[open..open + |Render(segs[1])|] == Render(segs[1])
            && s[open + |Render(segs[1])|..] == Unparse(segs[2..]) && WellFormed(segs[2..])
  {
    var t := segs[0].text;
    var x := segs[1];
    var rest := Unparse(segs[2..]);
    assert ValidSegment(segs[0]) && ValidSegment(x) && !x.TextSegment?;
    assert segs[1..][1..] == segs[2..];
    assert Unparse(segs) == t + (Render(x) + rest);
    SuffixPieces(s, ptr, t, Render(x), rest);
    FirstBraceAt(s, ptr, ptr + |t|, Render(x));
    WellFormedTail(segs, 2);
  }

  /** The text of a list holding one text segment, as the scan meets it. */
  lemma TextOnly(s: string, ptr: nat, segs: seq<Segment>)
    requires ptr <= |s| && s[ptr..] == Unparse(segs)
    requires WellFormed(segs) && |segs| == 1 && segs[0].TextSegment?
    ensures ParseFrom(s, ptr) == ParseOutcome(segs, None)
  {
    var t := segs[0].text;
    assert ValidSegment(segs[0]);
    assert s[ptr..] == t + Unparse(segs[1..]);
    assert s[ptr..] == t;
    assert s[ptr..] == s[ptr..|s|];
    NotInSlice(s, '{', ptr, |s|);
    IndexOfAbsent(s, '{', ptr);
    assert ParseFrom(s, ptr) == ParseAt(s, ptr);
  }

  /** Text before the brace that is exactly `seg`'s text: `Lead` pushes `seg`. */
  lemma LeadIsText(s: string, ptr: nat, open: nat, seg: Segment)
    requires ptr < open <= |s| && seg.TextSegment? && s[ptr..open] == seg.text
    ensures Lead(s, ptr, open) == [seg]
  {
  }

  lemma Split1(segs: seq<Segment>, lead: seq<Segment>)
    requires |segs| > 0 && lead == []
    ensures segs == lead + [segs[0]] + segs[1..]
  {
  }

  lemma Split2(segs: seq<Segment>, lead: seq<Segment>)
    requires |segs| > 1 && lead == [segs[0]]
    ensures segs == lead + [segs[1]] + segs[2..]
  {
  }

  /** The scan from `ptr` gives exactly `segs` and no error. */
  predicate ParsesTo(s: string, ptr: nat, segs: seq<Segment>)
    requires ptr <= |s|
  {
    Outcome(s, ptr) == ParseOutcome(segs, None)
  }

  /** The scan from `ptr`, named so that stating a fact about it does not unfold it. */
  function Outcome(s: string, ptr: nat): ParseOutcome
    requires ptr <= |s|
  {
    ParseFrom(s, ptr)
  }

  /** A brace segment after text free of `{`, followed by text the scan reads back: all read back. */
  lemma {:induction false} ParsesAfterBrace(s: string, ptr: nat, open: nat, x: Segment, rest: seq<Segment>, segs: seq<Segment>)
    requires ptr <= open && open + |Render(x)| <= |s|
    requires IndexOf(s, '{', ptr) == open
    requires ValidSegment(x) && !x.TextSegment?
    requires s[open..open + |Render(x)|] == Render(x)
    requires s[open + |Render(x)|..] == Unparse(rest) && WellFormed(rest)
    requires segs == Lead(s, ptr, open) + [x] + rest
    ensures ParsesTo(s, ptr, segs)
    decreases |segs|, 0
  {
    BraceParses(s, ptr, open, x);
    UnparseParsesFrom(s, open + |Render(x)|, rest);
  }

  /** A list that starts with text and then a brace segment is read back. */
  lemma {:induction false} TextBraceParses(s: string, ptr: nat, segs: seq<Segment>)
    requires ptr <= |s| && s[ptr..] == Unparse(segs)
    requires WellFormed(segs) && |segs| > 1 && segs[0].TextSegment?
    ensures ParsesTo(s, ptr, segs)
    decreases |segs|, 1
  {
    var open := ptr + |segs[0].text|;
    TextThenBrace(s, ptr, segs);
    LeadIsText(s, ptr, open, segs[0]);
    Split2(segs, Lead(s, ptr, open));
    ParsesAfterBrace(s, ptr, open, segs[1], segs[2..], segs);
  }

  /** A list that starts with a brace segment is read back. */
  lemma {:induction false} BraceFirstParses(s: string, ptr: nat, segs: seq<Segment>)
    requires ptr <= |s| && s[ptr..] == Unparse(segs)
    requires WellFormed(segs) && |segs| > 0 && !segs[0].TextSegment?
    ensures ParsesTo(s, ptr, segs)
    decreases |segs|, 1
  {
    BraceFirst(s, ptr, segs);
    Split1(segs, Lead(s, ptr, ptr));
    ParsesAfterBrace(s, ptr, ptr, segs[0], segs[1..], segs);
  }

  /**
   * Parsing the text of a well-formed segment list, from the cursor where that
   * text starts, gives back exactly that list and no error.
   */
  lemma {:induction false} UnparseParsesFrom(s: string, ptr: nat, segs: seq<Segment>)
    requires ptr <= |s| && s[ptr..] == Unparse(segs)
    requires WellFormed(segs)
    ensures ParsesTo(s, ptr, segs)
    decreases |segs|, 2
  {
    if segs == [] {
      assert |s[ptr..]| == |Unparse([])| == 0;
      assert ptr == |s|;
    } else if segs[0].TextSegment? && |segs| == 1 {
      TextOnly(s, ptr, segs);
    } else if segs[0].TextSegment? {
      TextBraceParses(s, ptr, segs);
    } else {
      BraceFirstParses(s, ptr, segs);
    }
  }

  /** Every well-formed segment list is what its own text parses into. */
  lemma UnparseParses(segs: seq<Segment>)
    requires WellFormed(segs)
    ensures Parse(Unparse(segs)) == ParseOutcome(segs, None)
  {
    var s := Unparse(segs);
    assert s[0..] == s;
    UnparseParsesFrom(s, 0, segs);
  }
}
