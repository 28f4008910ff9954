/**
 * What both compilers (`FastStringFormatCompiler` and the older `Compiler`)
 * share: the pluggable parser and the builder it fills, the argument guards,
 * parse-then-resolve, the concatenation tiers, and what a compiled
 * formatter computes.
 */
module Formatting {
  import opened Wrappers
  import opened Segments
  import opened Builder
  import opened DefaultFormatParser
  import opened Registry
  import opened Errors
  import opened Runtime
  import opened Resolution

  /**
   * An `IFormatStringParser`: the default scanner, or another implementation,
   * described by what it pushes to the builder and the syntax error it throws, if any.
   */
  datatype FormatStringParser = Default | Custom(behaviour: string -> ParseOutcome)

  function ParseWith(parser: FormatStringParser, formatString: string): ParseOutcome
  {
    match parser
    case Default => Parse(formatString)
    case Custom(behaviour) => behaviour(formatString)
  }

  /** A parser pushing the segments it has found, one `Add*` call each, in order. */
  method Push(outcome: ParseOutcome, builder: ParsedStringBuilder) returns (error: Option<SyntaxError>)
    modifies builder
    ensures builder.segments == old(builder.segments) + outcome.segments
    ensures error == outcome.error
  {
    var i := 0;
    while i < |outcome.segments|
      invariant 0 <= i <= |outcome.segments|
      invariant builder.segments == old(builder.segments) + outcome.segments[..i]
    {
      match outcome.segments[i] {
        case TextSegment(t) => builder.AddTextSegment(t);
        case ParamSegment(p) => builder.AddParamSegment(p);
        case FormattedParamSegment(p, f) => builder.AddFormattedParamSegment(p, f);
      }
      assert outcome.segments[..i + 1] == outcome.segments[..i] + [outcome.segments[i]];
      i := i + 1;
    }
    assert outcome.segments[..i] == outcome.segments;
    return outcome.error;
  }

  /**
   * `ParseFormatString`: a fresh builder, filled by the parser; its segments,
   * or the syntax error the parser throws.
   */
  method ParseFormatString(parser: FormatStringParser, formatString: string) returns (segments: seq<Segment>, error: Option<SyntaxError>)
    ensures ParseOutcome(segments, error) == ParseWith(parser, formatString)
  {
    var builder := new ParsedStringBuilder();
    match parser {
      case Default =>
        error := DefaultFormatParser.ParseFormatString(formatString, builder);
      case Custom(behaviour) =>
        error := Push(behaviour(formatString), builder);
    }
    segments := builder.Segments();
  }

  /**
   * `segments.Select(s => s.ToExpression<T>(…))`, enumerated front to back:
   * the expressions in segment order, or the error of the first segment that fails.
   */
  function ResolveAll(reg: Registry, root: TypeId, ignoreCase: bool, provider: FormatProvider, segs: seq<Segment>)
    : Result<seq<Expr>, CompileError>
    decreases |segs|
  {
    if segs == [] then Ok([])
    else
      var head := ToExpression(reg, root, ignoreCase, provider, segs[0]);
      if head.Err? then Err(head.error)
      else
        var tail := ResolveAll(reg, root, ignoreCase, provider, segs[1..]);
        if tail.Err? then Err(tail.error) else Ok([head.value] + tail.value)
  }

  /** On success, one expression per segment, each the segment's own resolution. */
  lemma {:induction false} ResolveAllOk(reg: Registry, root: TypeId, ignoreCase: bool, provider: FormatProvider, segs: seq<Segment>)
    requires ResolveAll(reg, root, ignoreCase, provider, segs).Ok?
    ensures var es := ResolveAll(reg, root, ignoreCase, provider, segs).value;
      |es| == |segs| && forall i :: 0 <= i < |segs| ==> ToExpression(reg, root, ignoreCase, provider, segs[i]) == Ok(es[i])
    decreases |segs|
  {
    if segs != [] {
      ResolveAllOk(reg, root, ignoreCase, provider, segs[1..]);
    }
  }

  /** Conversely, when every segment resolves, the result lists their expressions in order. */
  lemma {:induction false} ResolveAllEach(reg: Registry, root: TypeId, ignoreCase: bool, provider: FormatProvider,
                                          segs: seq<Segment>, es: seq<Expr>)
    requires |es| == |segs|
    requires forall i :: 0 <= i < |segs| ==> ToExpression(reg, root, ignoreCase, provider, segs[i]) == Ok(es[i])
    ensures ResolveAll(reg, root, ignoreCase, provider, segs) == Ok(es)
    decreases |segs|
  {
    if segs != [] {
      assert forall i :: 0 <= i < |segs| - 1 ==> segs[1..][i] == segs[i + 1] && es[1..][i] == es[i + 1];
      ResolveAllEach(reg, root, ignoreCase, provider, segs[1..], es[1..]);
      assert es == [es[0]] + es[1..];
    }
  }

  /** A failure is the error of the first segment that does not resolve; all segments before it do. */
  lemma {:induction false} ResolveAllErr(reg: Registry, root: TypeId, ignoreCase: bool, provider: FormatProvider, segs: seq<Segment>)
      returns (k: nat)
    requires ResolveAll(reg, root, ignoreCase, provider, segs).Err?
    ensures k < |segs|
    ensures ToExpression(reg, root, ignoreCase, provider, segs[k]) == Err(ResolveAll(reg, root, ignoreCase, provider, segs).error)
    ensures forall i :: 0 <= i < k ==> ToExpression(reg, root, ignoreCase, provider, segs[i]).Ok?
    decreases |segs|
  {
    if ToExpression(reg, root, ignoreCase, provider, segs[0]).Err? {
      k := 0;
    } else {
      var k' := ResolveAllErr(reg, root, ignoreCase, provider, segs[1..]);
      k := k' + 1;
    }
  }

  /** Conversely, the first segment that does not resolve decides the error. */
  lemma {:induction false} ResolveAllFirstErr(reg: Registry, root: TypeId, ignoreCase: bool, provider: FormatProvider,
                                              segs: seq<Segment>, k: nat)
    requires k < |segs|
    requires forall i :: 0 <= i < k ==> ToExpression(reg, root, ignoreCase, provider, segs[i]).Ok?
    requires ToExpression(reg, root, ignoreCase, provider, segs[k]).Err?
    ensures ResolveAll(reg, root, ignoreCase, provider, segs) == Err(ToExpression(reg, root, ignoreCase, provider, segs[k]).error)
    decreases k
  {
    if k > 0 {
      assert forall i :: 0 <= i < k - 1 ==> segs[1..][i] == segs[i + 1];
      ResolveAllFirstErr(reg, root, ignoreCase, provider, segs[1..], k - 1);
    }
  }

  /** The resolved segments are all string-typed expressions over the formatter's parameter. */
  lemma {:induction false} ResolveAllStrings(reg: Registry, root: TypeId, ignoreCase: bool, provider: FormatProvider, segs: seq<Segment>)
    requires ResolveAll(reg, root, ignoreCase, provider, segs).Ok?
    ensures forall e :: e in ResolveAll(reg, root, ignoreCase, provider, segs).value ==> TypeOf(e) == StringType && Rooted(e, root)
  {
    var es := ResolveAll(reg, root, ignoreCase, provider, segs).value;
    ResolveAllOk(reg, root, ignoreCase, provider, segs);
    forall e | e in es
      ensures TypeOf(e) == StringType && Rooted(e, root)
    {
      var i :| 0 <= i < |es| && es[i] == e;
      ResolvedIsString(reg, root, ignoreCase, provider, segs[i]);
    }
  }

  /**
   * The part of `Compile` both compilers share: the two argument guards, in
   * that order, then the whole template is parsed, then the segments are
   * resolved against `T` with case-insensitive binding.
   */
  function Prepare(parser: FormatStringParser, reg: Registry, root: TypeId,
                   formatString: Option<string>, formatProvider: Option<FormatProvider>): Result<seq<Expr>, CompileError>
  {
    if formatString.None? then Err(ArgumentNull("formatString"))
    else if formatProvider.None? then Err(ArgumentNull("formatProvider"))
    else
      var parsed := ParseWith(parser, formatString.value);
      if parsed.error.Some? then Err(Syntax(parsed.error.value))
      else ResolveAll(reg, root, true, formatProvider.value, parsed.segments)
  }

  /** A template that parses into segments that all resolve prepares to their expressions. */
  lemma PrepareEach(parser: FormatStringParser, reg: Registry, root: TypeId, formatString: string, provider: FormatProvider,
                    segs: seq<Segment>, es: seq<Expr>)
    requires ParseWith(parser, formatString) == ParseOutcome(segs, None)
    requires |es| == |segs|
    requires forall i :: 0 <= i < |segs| ==> ToExpression(reg, root, true, provider, segs[i]) == Ok(es[i])
    ensures Prepare(parser, reg, root, Some(formatString), Some(provider)) == Ok(es)
  {
    ResolveAllEach(reg, root, true, provider, segs, es);
  }

  /** A template that parses, but whose `k`th segment is the first not to resolve, fails with that segment's error. */
  lemma PrepareFails(parser: FormatStringParser, reg: Registry, root: TypeId, formatString: string, provider: FormatProvider,
                     segs: seq<Segment>, k: nat)
    requires ParseWith(parser, formatString) == ParseOutcome(segs, None)
    requires k < |segs|
    requires forall i :: 0 <= i < k ==> ToExpression(reg, root, true, provider, segs[i]).Ok?
    requires ToExpression(reg, root, true, provider, segs[k]).Err?
    ensures Prepare(parser, reg, root, Some(formatString), Some(provider)) == Err(ToExpression(reg, root, true, provider, segs[k]).error)
  {
    ResolveAllFirstErr(reg, root, true, provider, segs, k);
  }

  /** A formatter's body, as handed to `Expression.Lambda`. */
  datatype Formatter =
    /** `Expression.Coalesce(body, Constant(""))`. */
    | Coalesced(body: Expr)
    /** The segment expression itself. */
    | Bare(body: Expr)
    /** `String.Concat(string, …)` with the arguments inline. */
    | InlineConcat(args: seq<Expr>)
    /** `String.Concat(string[])` over `Expression.NewArrayInit`. */
    | ArrayConcat(elements: seq<Expr>)

  /** `CompileToSingleConcat`: a `String.Concat` overload with that many string parameters exists only for 2 to 4. */
  function CompileToSingleConcat(es: seq<Expr>): Result<Formatter, CompileError>
  {
    if 2 <= |es| <= 4 then Ok(InlineConcat(es)) else Err(ArgumentNull("method"))
  }

  function CompileToArrayConcat(es: seq<Expr>): Formatter
  {
    ArrayConcat(es)
  }

  /** Arguments (or array elements) evaluated left to right; None once one throws. */
  function EvalAll(reg: Registry, host: Host, x: Value, es: seq<Expr>): Option<seq<Value>>
    decreases |es|
  {
    if es == [] then Some([])
    else
      var head := Eval(reg, host, x, es[0]);
      var tail := EvalAll(reg, host, x, es[1..]);
      if head.Faulted? || tail.None? then None else Some([head.value] + tail.value)
  }

  /** `String.Concat` over evaluated arguments: null strings count as empty. */
  function Concat(vals: seq<Value>): string
  {
    if vals == [] then "" else Piece(vals[0]) + Concat(vals[1..])
  }

  function Joined(args: Option<seq<Value>>): Outcome
  {
    if args.None? then Faulted else Returned(Str(Concat(args.value)))
  }

  /** `Expression.Coalesce(e, Constant(""))` applied to the value of `e`. */
  function CoalesceEmpty(o: Outcome): Outcome
  {
    if o == Returned(Null) then Returned(Str("")) else o
  }

  /** Invoking the compiled formatter on `x`. */
  function Run(reg: Registry, host: Host, x: Value, f: Formatter): Outcome
  {
    match f
    case Coalesced(body) => CoalesceEmpty(Eval(reg, host, x, body))
    case Bare(body) => Eval(reg, host, x, body)
    case InlineConcat(args) => Joined(EvalAll(reg, host, x, args))
    case ArrayConcat(elements) => Joined(EvalAll(reg, host, x, elements))
  }

  /**
   * The reference: the segment strings appended one after the other, a null
   * one as empty; the formatter throws if any segment throws.
   */
  function InOrder(reg: Registry, host: Host, x: Value, es: seq<Expr>): Outcome
    decreases |es|
  {
    if es == [] then Returned(Str(""))
    else
      var init := InOrder(reg, host, x, es[..|es| - 1]);
      var last := Eval(reg, host, x, es[|es| - 1]);
      if init.Faulted? || last.Faulted? then Faulted
      else Returned(Str(Piece(init.value) + Piece(last.value)))
  }

  lemma {:induction false} EvalAllSnoc(reg: Registry, host: Host, x: Value, es: seq<Expr>, e: Expr)
    ensures EvalAll(reg, host, x, es + [e]) ==
      var init := EvalAll(reg, host, x, es);
      var last := Eval(reg, host, x, e);
      if init.None? || last.Faulted? then None else Some(init.value + [last.value])
    decreases |es|
  {
    if es == [] {
      assert es + [e] == [e];
      assert [e][1..] == [];
      var last := Eval(reg, host, x, e);
      if last.Returned? {
        assert [last.value] + [] == [] + [last.value];
      }
    } else {
      assert (es + [e])[0] == es[0] && (es + [e])[1..] == es[1..] + [e];
      EvalAllSnoc(reg, host, x, es[1..], e);
      var head := Eval(reg, host, x, es[0]);
      var tail := EvalAll(reg, host, x, es[1..]);
      if head.Returned? && tail.Some? && Eval(reg, host, x, e).Returned? {
        assert [head.value] + (tail.value + [Eval(reg, host, x, e).value]) ==
               ([head.value] + tail.value) + [Eval(reg, host, x, e).value];
      }
    }
  }

  lemma {:induction false} ConcatSnoc(vals: seq<Value>, v: Value)
    ensures Concat(vals + [v]) == Concat(vals) + Piece(v)
    decreases |vals|
  {
    if vals == [] {
      assert vals + [v] == [v];
      assert [v][1..] == [];
    } else {
      assert (vals + [v])[0] == vals[0] && (vals + [v])[1..] == vals[1..] + [v];
      ConcatSnoc(vals[1..], v);
    }
  }

  /**
   * Evaluating all arguments and concatenating them, the way both
   * `String.Concat` tiers do, is the in-order concatenation.
   */
  lemma {:induction false} JoinedInOrder(reg: Registry, host: Host, x: Value, es: seq<Expr>)
    ensures Joined(EvalAll(reg, host, x, es)) == InOrder(reg, host, x, es)
    decreases |es|
  {
    if es != [] {
      var init := es[..|es| - 1];
      var e := es[|es| - 1];
      assert es == init + [e];
      JoinedInOrder(reg, host, x, init);
      EvalAllSnoc(reg, host, x, init, e);
      var vals := EvalAll(reg, host, x, init);
      if vals.Some? && Eval(reg, host, x, e).Returned? {
        ConcatSnoc(vals.value, Eval(reg, host, x, e).value);
      }
    }
  }

  /** Both concatenation tiers compute the in-order concatenation, for any expressions. */
  lemma ConcatTiersInOrder(reg: Registry, host: Host, x: Value, es: seq<Expr>)
    ensures Run(reg, host, x, InlineConcat(es)) == InOrder(reg, host, x, es)
    ensures Run(reg, host, x, ArrayConcat(es)) == InOrder(reg, host, x, es)
  {
    JoinedInOrder(reg, host, x, es);
  }

  /** The coalescing singleton computes the in-order concatenation of its one string-valued segment. */
  lemma CoalescedInOrder(reg: Registry, host: Host, x: Value, e: Expr)
    requires Eval(reg, host, x, e).Returned? ==> !Eval(reg, host, x, e).value.Obj?
    ensures Run(reg, host, x, Coalesced(e)) == InOrder(reg, host, x, [e])
  {
    assert [e][..0] == [];
  }

  /** The coalescing singleton never returns null, whatever its segment returns. */
  lemma CoalescedNeverNull(reg: Registry, host: Host, x: Value, e: Expr)
    ensures Run(reg, host, x, Coalesced(e)) != Returned(Null)
    ensures Eval(reg, host, x, e).Returned? ==> Run(reg, host, x, Coalesced(e)).Returned?
  {
  }
}
