/** `DefaultFormatParser`: the single forward scan over a template. */
module DefaultFormatParser {
  import opened Wrappers
  import opened Strings
  import opened Segments
  import opened Builder

  /**
   * What a parse leaves behind: the segments pushed to the builder, in order,
   * and the syntax error that stopped it, if any.
   */
  datatype ParseOutcome = ParseOutcome(segments: seq<Segment>, error: Option<SyntaxError>)

  function Prefixed(lead: seq<Segment>, rest: ParseOutcome): ParseOutcome
  {
    ParseOutcome(lead + rest.segments, rest.error)
  }

  /** The scan from cursor `ptr` to the end of the template (or to the first error). */
  function ParseFrom(s: string, ptr: nat): ParseOutcome
    requires ptr <= |s|
    decreases |s| - ptr, 1
  {
    if ptr == |s| then ParseOutcome([], None) else ParseAt(s, ptr)
  }

  /**
   * One iteration of the loop in `ParseFormatString` from `ptr < |s|`,
   * followed by the scan from where it leaves the cursor.
   */
  function ParseAt(s: string, ptr: nat): ParseOutcome
    requires ptr < |s|
    decreases |s| - ptr, 0
  {
    var open := IndexOf(s, '{', ptr);
    if open == -1 then ParseOutcome([TextSegment(s[ptr..])], None)
    else
      var lead := Lead(s, ptr, open);
      var close := IndexOf(s, '}', open);
      var colon := IndexOf(s, ':', open);
      if colon != -1 && colon < close then
        var param := s[open + 1..colon];
        var format := s[colon + 1..close];
        if |param| == 0 then ParseOutcome(lead, Some(EmptyParameter(open)))
        else if |format| == 0 then ParseOutcome(lead, Some(EmptyFormat(open)))
        else Prefixed(lead + [FormattedParamSegment(param, format)], ParseFrom(s, close + 1))
      else if close != -1 then
        var param := s[open + 1..close];
        if |param| == 0 then ParseOutcome(lead, Some(EmptyParameter(open)))
        else Prefixed(lead + [ParamSegment(param)], ParseFrom(s, close + 1))
      else ParseOutcome(lead, Some(UnmatchedBrace(open)))
  }

  /** The text before the brace at `open`, as the scan pushes it. */
  function Lead(s: string, ptr: nat, open: nat): seq<Segment>
    requires ptr <= open <= |s|
  {
    if open - ptr != 0 then [TextSegment(s[ptr..open])] else []
  }

  /** The whole parse of a template. */
  function Parse(s: string): ParseOutcome
  {
    ParseFrom(s, 0)
  }

  /**
   * Where the scan ends up when `done` has already been pushed and the cursor
   * is at `ptr`: the loop invariant of `ParseFormatString`.
   */
  function Pending(done: seq<Segment>, s: string, ptr: nat): ParseOutcome
    requires ptr <= |s|
  {
    Prefixed(done, ParseFrom(s, ptr))
  }

  /** Three-way concatenation regrouped, for the bookkeeping lemmas below. */
  lemma Regroup(done: seq<Segment>, lead: seq<Segment>, pushed: seq<Segment>, rest: seq<Segment>)
    ensures done + ((lead + pushed) + rest) == ((done + lead) + pushed) + rest
  {
  }

  /**
   * A brace with a colon before its closing brace and both parts non-empty:
   * the iteration pushes a formatted parameter and moves past the `}`.
   */
  lemma ParseFromFormatted(s: string, ptr: nat, open: int, close: int, colon: int)
    requires ptr < |s| && open == IndexOf(s, '{', ptr) && open != -1
    requires close == IndexOf(s, '}', open) && colon == IndexOf(s, ':', open)
    requires colon != -1 && colon < close
    requires |s[open + 1..colon]| != 0 && |s[colon + 1..close]| != 0
    ensures close + 1 <= |s|
    ensures ParseFrom(s, ptr)
         == Pending(Lead(s, ptr, open) + [FormattedParamSegment(s[open + 1..colon], s[colon + 1..close])], s, close + 1)
  {
    assert ParseFrom(s, ptr) == ParseAt(s, ptr);
  }

  /**
   * A brace closed before any colon, with a non-empty name: the iteration
   * pushes a plain parameter and moves past the `}`.
   */
  lemma ParseFromParam(s: string, ptr: nat, open: int, close: int, colon: int)
    requires ptr < |s| && open == IndexOf(s, '{', ptr) && open != -1
    requires close == IndexOf(s, '}', open) && colon == IndexOf(s, ':', open)
    requires !(colon != -1 && colon < close) && close != -1
    requires |s[open + 1..close]| != 0
    ensures close + 1 <= |s|
    ensures ParseFrom(s, ptr) == Pending(Lead(s, ptr, open) + [ParamSegment(s[open + 1..close])], s, close + 1)
  {
    assert ParseFrom(s, ptr) == ParseAt(s, ptr);
  }

  /** The loop's bookkeeping for an iteration that pushes `lead` and then `x`. */
  lemma PendingStep(s: string, ptr: nat, next: nat, lead: seq<Segment>, x: Segment,
                    done: seq<Segment>, mid: seq<Segment>, after: seq<Segment>, total: ParseOutcome)
    requires ptr <= |s| && next <= |s|
    requires ParseFrom(s, ptr) == Pending(lead + [x], s, next)
    requires Pending(done, s, ptr) == total
    requires mid == done + lead && after == mid + [x]
    ensures Pending(after, s, next) == total
  {
    Regroup(done, lead, [x], ParseFrom(s, next).segments);
  }

  /** The loop's bookkeeping for a formatted parameter. */
  lemma PendingFormatted(s: string, ptr: nat, open: int, close: int, colon: int,
                         done: seq<Segment>, mid: seq<Segment>, after: seq<Segment>, total: ParseOutcome)
    requires ptr < |s| && open == IndexOf(s, '{', ptr) && open != -1
    requires close == IndexOf(s, '}', open) && colon == IndexOf(s, ':', open)
    requires colon != -1 && colon < close
    requires |s[open + 1..colon]| != 0 && |s[colon + 1..close]| != 0
    requires Pending(done, s, ptr) == total
    requires mid == done + Lead(s, ptr, open)
    requires after == mid + [FormattedParamSegment(s[open + 1..colon], s[colon + 1..close])]
    ensures close + 1 <= |s|
    ensures Pending(after, s, close + 1) == total
  {
    ParseFromFormatted(s, ptr, open, close, colon);
    PendingStep(s, ptr, close + 1, Lead(s, ptr, open), FormattedParamSegment(s[open + 1..colon], s[colon + 1..close]),
                done, mid, after, total);
  }

  /** The loop's bookkeeping for a plain parameter. */
  lemma PendingParam(s: string, ptr: nat, open: int, close: int, colon: int,
                     done: seq<Segment>, mid: seq<Segment>, after: seq<Segment>, total: ParseOutcome)
    requires ptr < |s| && open == IndexOf(s, '{', ptr) && open != -1
    requires close == IndexOf(s, '}', open) && colon == IndexOf(s, ':', open)
    requires !(colon != -1 && colon < close) && close != -1
    requires |s[open + 1..close]| != 0
    requires Pending(done, s, ptr) == total
    requires mid == done + Lead(s, ptr, open)
    requires after == mid + [ParamSegment(s[open + 1..close])]
    ensures close + 1 <= |s|
    ensures Pending(after, s, close + 1) == total
  {
    ParseFromParam(s, ptr, open, close, colon);
    PendingStep(s, ptr, close + 1, Lead(s, ptr, open), ParamSegment(s[open + 1..close]), done, mid, after, total);
  }

  /** Without a further `{` the scan ends with the rest of the template as text. */
  lemma PendingFinish(s: string, ptr: nat, done: seq<Segment>, after: seq<Segment>, total: ParseOutcome)
    requires ptr < |s| && IndexOf(s, '{', ptr) == -1
    requires Pending(done, s, ptr) == total
    requires after == done + [TextSegment(s[ptr..])]
    ensures total == ParseOutcome(after, None)
  {
    ParseFromFinish(s, ptr);
  }

  /** A brace the iteration rejects: the scan ends with the text before it and the error. */
  lemma ParseFromFail(s: string, ptr: nat, open: int, close: int, colon: int, e: SyntaxError)
    requires ptr < |s| && open == IndexOf(s, '{', ptr) && open != -1
    requires close == IndexOf(s, '}', open) && colon == IndexOf(s, ':', open)
    requires if colon != -1 && colon < close then
               if |s[open + 1..colon]| == 0 then e == EmptyParameter(open)
               else |s[colon + 1..close]| == 0 && e == EmptyFormat(open)
             else if close != -1 then |s[open + 1..close]| == 0 && e == EmptyParameter(open)
             else e == UnmatchedBrace(open)
    ensures ParseFrom(s, ptr) == ParseOutcome(Lead(s, ptr, open), Some(e))
  {
    assert ParseFrom(s, ptr) == ParseAt(s, ptr);
  }

  /** Without a further `{` the scan ends with the rest of the template as one text segment. */
  lemma ParseFromFinish(s: string, ptr: nat)
    requires ptr < |s| && IndexOf(s, '{', ptr) == -1
    ensures ParseFrom(s, ptr) == ParseOutcome([TextSegment(s[ptr..])], None)
  {
    assert ParseFrom(s, ptr) == ParseAt(s, ptr);
  }

  /** An iteration that throws leaves the text before the brace pushed, and its error. */
  lemma PendingFail(s: string, ptr: nat, open: int, close: int, colon: int, e: SyntaxError,
                    done: seq<Segment>, mid: seq<Segment>, total: ParseOutcome)
    requires ptr < |s| && open == IndexOf(s, '{', ptr) && open != -1
    requires close == IndexOf(s, '}', open) && colon == IndexOf(s, ':', open)
    requires if colon != -1 && colon < close then
               if |s[open + 1..colon]| == 0 then e == EmptyParameter(open)
               else |s[colon + 1..close]| == 0 && e == EmptyFormat(open)
             else if close != -1 then |s[open + 1..close]| == 0 && e == EmptyParameter(open)
             else e == UnmatchedBrace(open)
    requires Pending(done, s, ptr) == total
    requires mid == done + Lead(s, ptr, open)
    ensures total == ParseOutcome(mid, Some(e))
  {
    ParseFromFail(s, ptr, open, close, colon, e);
  }

  /** At the end of the template nothing more is owed. */
  lemma PendingEnd(s: string, done: seq<Segment>, total: ParseOutcome)
    requires Pending(done, s, |s|) == total
    ensures total == ParseOutcome(done, None)
  {
    assert done + [] == done;
  }

  /**
   * `ParseFormatString`: pushes the segments of `formatString` into `builder`
   * and returns the syntax error it would throw, if any; the segments before
   * the offending `{` stay pushed. The loop terminates because the cursor
   * moves to one past a `}` found after the `{` it has just passed.
   */
  method ParseFormatString(formatString: string, builder: ParsedStringBuilder) returns (error: Option<SyntaxError>)
    modifies builder
    ensures builder.segments == old(builder.segments) + Parse(formatString).segments
    ensures error == Parse(formatString).error
  {
    ghost var total := Pending(builder.segments, formatString, 0);
    var ptr := 0;
    while ptr < |formatString|
      invariant 0 <= ptr <= |formatString|
      invariant Pending(builder.segments, formatString, ptr) == total
      decreases |formatString| - ptr
    {
      ghost var done := builder.segments;
      // Seek to the next open brace; without one the rest is trailing text.
      var openBraceAt := IndexOf(formatString, '{', ptr);
      if openBraceAt == -1 {
        builder.AddTextSegment(formatString[ptr..]);
        PendingFinish(formatString, ptr, done, builder.segments, total);
        return None;
      }
      // Text between the cursor and the brace, if any.
      var textSegmentLength := openBraceAt - ptr;
      if textSegmentLength != 0 {
        builder.AddTextSegment(formatString[ptr..openBraceAt]);
      }
      ghost var mid := builder.segments;
      var closeBraceAt := IndexOf(formatString, '}', openBraceAt);
      var colonAt := IndexOf(formatString, ':', openBraceAt);
      if colonAt != -1 && colonAt < closeBraceAt {
        // A colon before the closing brace: a formatted parameter.
        var paramSegment := formatString[openBraceAt + 1..colonAt];
        var formatSegment := formatString[colonAt + 1..closeBraceAt];
        if |paramSegment| == 0 {
          PendingFail(formatString, ptr, openBraceAt, closeBraceAt, colonAt, EmptyParameter(openBraceAt), done, mid, total);
          return Some(EmptyParameter(openBraceAt));
        }
        if |formatSegment| == 0 {
          PendingFail(formatString, ptr, openBraceAt, closeBraceAt, colonAt, EmptyFormat(openBraceAt), done, mid, total);
          return Some(EmptyFormat(openBraceAt));
        }
        builder.AddFormattedParamSegment(paramSegment, formatSegment);
        PendingFormatted(formatString, ptr, openBraceAt, closeBraceAt, colonAt, done, mid, builder.segments, total);
        ptr := closeBraceAt + 1;
      } else if closeBraceAt != -1 {
        // No colon before the closing brace: a plain parameter.
        var paramSegment := formatString[openBraceAt + 1..closeBraceAt];
        if |paramSegment| == 0 {
          PendingFail(formatString, ptr, openBraceAt, closeBraceAt, colonAt, EmptyParameter(openBraceAt), done, mid, total);
          return Some(EmptyParameter(openBraceAt));
        }
        builder.AddParamSegment(paramSegment);
        PendingParam(formatString, ptr, openBraceAt, closeBraceAt, colonAt, done, mid, builder.segments, total);
        ptr := closeBraceAt + 1;
      } else {
        // No matching close brace.
        PendingFail(formatString, ptr, openBraceAt, closeBraceAt, colonAt, UnmatchedBrace(openBraceAt), done, mid, total);
        return Some(UnmatchedBrace(openBraceAt));
      }
    }
    PendingEnd(formatString, builder.segments, total);
    return None;
  }
}
