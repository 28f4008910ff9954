/** The mutable segment list the parser fills (`ParsedStringBuilder`). */
module Builder {
  import opened Segments

  class ParsedStringBuilder {
    var segments: seq<Segment>

    constructor ()
      ensures segments == []
    {
      segments := [];
    }

    /** `Segments`: the list in the order the segments were added. */
    function Segments(): seq<Segment>
      reads this
    {
      segments
    }

    method AddTextSegment(text: string)
      modifies this
      ensures segments == old(segments) + [TextSegment(text)]
    {
      segments := segments + [TextSegment(text)];
    }

    method AddParamSegment(param: string)
      modifies this
      ensures segments == old(segments) + [ParamSegment(param)]
    {
      segments := segments + [ParamSegment(param)];
    }

    method AddFormattedParamSegment(param: string, format: string)
      modifies this
      ensures segments == old(segments) + [FormattedParamSegment(param, format)]
    {
      segments := segments + [FormattedParamSegment(param, format)];
    }
  }
}
