/**
 * `FastStringFormatCompiler`: turns a template into a formatter for values
 * of a type `T`, picking how the segment strings are joined by their number.
 */
module FastCompiler {
  import opened Wrappers
  import opened Segments
  import opened DefaultFormatParser
  import opened Registry
  import opened Errors
  import opened Runtime
  import opened Resolution
  import opened Formatting
  import ParserExamples

  /** The compiler holds only its parser, set once by a constructor. */
  datatype FastStringFormatCompiler = FastStringFormatCompiler(parser: FormatStringParser)

  /** The parameterless constructor: the default parser. */
  function NewCompiler(): FastStringFormatCompiler
  {
    FastStringFormatCompiler(Default)
  }

  /**
   * The compiler the parameterless constructor makes prepares from the scan of
   * `DefaultFormatParser`: that scan's syntax error, or else the resolution of
   * the segments it pushed.
   */
  lemma DefaultParserScans(reg: Registry, root: TypeId, s: string, provider: FormatProvider)
    ensures ParseWith(NewCompiler().parser, s) == Parse(s)
    ensures Prepare(NewCompiler().parser, reg, root, Some(s), Some(provider)) ==
            if Parse(s).error.Some? then Err(Syntax(Parse(s).error.value))
            else ResolveAll(reg, root, true, provider, Parse(s).segments)
  {
  }

  /** `CompileToSingleton`: null from the one segment is replaced by "". */
  function CompileToSingleton(e: Expr): Formatter
  {
    Coalesced(e)
  }

  /**
   * `Compile<T>(formatString, formatProvider)`, with `T` = `root` described
   * by `reg`: the formatter, or the exception compiling throws.
   */
  function Compile(c: FastStringFormatCompiler, reg: Registry, root: TypeId,
                   formatString: Option<string>, formatProvider: Option<FormatProvider>): Result<Formatter, CompileError>
  {
    var prepared := Prepare(c.parser, reg, root, formatString, formatProvider);
    if prepared.Err? then Err(prepared.error)
    else
      var es := prepared.value;
      if |es| == 1 then Ok(CompileToSingleton(es[0]))
      else if |es| <= 4 then CompileToSingleConcat(es)
      else Ok(CompileToArrayConcat(es))
  }

  /** `Compile<T>(formatString)`: the current culture as the format provider. */
  function CompileWithCurrentCulture(c: FastStringFormatCompiler, reg: Registry, root: TypeId,
                                     formatString: Option<string>, currentCulture: FormatProvider): Result<Formatter, CompileError>
  {
    Compile(c, reg, root, formatString, Some(currentCulture))
  }

  /** The guards come first, the template's before the provider's, and nothing else is looked at. */
  lemma CompileGuards(c: FastStringFormatCompiler, reg: Registry, root: TypeId,
                      formatString: Option<string>, formatProvider: Option<FormatProvider>)
    ensures formatString.None? ==> Compile(c, reg, root, formatString, formatProvider) == Err(ArgumentNull("formatString"))
    ensures formatString.Some? && formatProvider.None? ==>
            Compile(c, reg, root, formatString, formatProvider) == Err(ArgumentNull("formatProvider"))
    ensures formatString.Some? && formatProvider.Some? ==>
            !Compile(c, reg, root, formatString, formatProvider).Err? ||
            Compile(c, reg, root, formatString, formatProvider).error !in {ArgumentNull("formatString"), ArgumentNull("formatProvider")}
  {
    if formatString.Some? && formatProvider.Some? {
      var parsed := ParseWith(c.parser, formatString.value);
      if parsed.error.None? {
        var r := ResolveAll(reg, root, true, formatProvider.value, parsed.segments);
        if r.Err? {
          var k := ResolveAllErr(reg, root, true, formatProvider.value, parsed.segments);
        }
      }
    }
  }

  /** The one-argument form never reports a missing provider. */
  lemma CurrentCultureIsProvider(c: FastStringFormatCompiler, reg: Registry, root: TypeId,
                                 formatString: Option<string>, currentCulture: FormatProvider)
    ensures CompileWithCurrentCulture(c, reg, root, formatString, currentCulture) != Err(ArgumentNull("formatProvider"))
    ensures CompileWithCurrentCulture(c, reg, root, formatString, currentCulture) ==
            Compile(c, reg, root, formatString, Some(currentCulture))
  {
    CompileGuards(c, reg, root, formatString, Some(currentCulture));
  }

  /**
   * The whole template is parsed before any segment is resolved: a syntax
   * error is reported whatever the type, and the segments pushed before it
   * are never looked up.
   */
  lemma SyntaxErrorFirst(c: FastStringFormatCompiler, reg: Registry, root: TypeId, formatString: string, provider: FormatProvider)
    requires ParseWith(c.parser, formatString).error.Some?
    ensures Compile(c, reg, root, Some(formatString), Some(provider)) ==
            Err(Syntax(ParseWith(c.parser, formatString).error.value))
  {
  }

  /**
   * A template that parses but does not resolve fails with the error of its
   * first segment that does not resolve (with case-insensitive binding).
   */
  lemma FirstResolutionError(c: FastStringFormatCompiler, reg: Registry, root: TypeId, formatString: string, provider: FormatProvider)
      returns (k: nat)
    requires ParseWith(c.parser, formatString).error.None?
    requires ResolveAll(reg, root, true, provider, ParseWith(c.parser, formatString).segments).Err?
    ensures var segs := ParseWith(c.parser, formatString).segments;
      && k < |segs|
      && (forall i :: 0 <= i < k ==> ToExpression(reg, root, true, provider, segs[i]).Ok?)
      && ToExpression(reg, root, true, provider, segs[k]).Err?
      && Compile(c, reg, root, Some(formatString), Some(provider)) == Err(ToExpression(reg, root, true, provider, segs[k]).error)
  {
    k := ResolveAllErr(reg, root, true, provider, ParseWith(c.parser, formatString).segments);
  }

  /**
   * How the segments are joined: one segment is coalesced with "", two to
   * four go to the inline `String.Concat`, more to the array one; with no
   * segment at all no `Concat` overload is found and compiling throws.
   */
  lemma Tiers(c: FastStringFormatCompiler, reg: Registry, root: TypeId, formatString: string, provider: FormatProvider)
    requires ParseWith(c.parser, formatString).error.None?
    requires ResolveAll(reg, root, true, provider, ParseWith(c.parser, formatString).segments).Ok?
    ensures var segs := ParseWith(c.parser, formatString).segments;
      var es := ResolveAll(reg, root, true, provider, segs).value;
      var r := Compile(c, reg, root, Some(formatString), Some(provider));
      && |es| == |segs|
      && (|segs| == 0 ==> r == Err(ArgumentNull("method")))
      && (|segs| == 1 ==> r == Ok(Coalesced(es[0])))
      && (2 <= |segs| <= 4 ==> r == Ok(InlineConcat(es)))
      && (|segs| > 4 ==> r == Ok(ArrayConcat(es)))
  {
    ResolveAllOk(reg, root, true, provider, ParseWith(c.parser, formatString).segments);
  }

  /** The in-order concatenation is a string or a fault: never null, never another object. */
  lemma {:induction false} InOrderIsString(reg: Registry, host: Host, x: Value, es: seq<Expr>)
    ensures InOrder(reg, host, x, es).Faulted? || InOrder(reg, host, x, es).value.Str?
    decreases |es|
  {
    if es != [] {
      InOrderIsString(reg, host, x, es[..|es| - 1]);
    }
  }

  /**
   * Whatever tier was picked, the formatter computes the segment strings
   * appended in template order, a null segment counting as empty; so it never
   * returns null.
   */
  lemma ComputesInOrder(c: FastStringFormatCompiler, reg: Registry, root: TypeId, formatString: string,
                        provider: FormatProvider, host: Host, x: Value)
    requires WellTyped(reg, host) && Fits(reg, x, root)
    requires Compile(c, reg, root, Some(formatString), Some(provider)).Ok?
    ensures var es := Prepare(c.parser, reg, root, Some(formatString), Some(provider)).value;
      var out := Run(reg, host, x, Compile(c, reg, root, Some(formatString), Some(provider)).value);
      && out == InOrder(reg, host, x, es)
      && out != Returned(Null)
  {
    var segs := ParseWith(c.parser, formatString).segments;
    var es := Prepare(c.parser, reg, root, Some(formatString), Some(provider)).value;
    InOrderIsString(reg, host, x, es);
    if |es| == 1 {
      ResolveAllStrings(reg, root, true, provider, segs);
      assert es[0] in es;
      EvalFits(reg, host, x, root, es[0]);
      CoalescedInOrder(reg, host, x, es[0]);
    } else {
      ConcatTiersInOrder(reg, host, x, es);
    }
  }

  /**
   * A template without `{` compiles (with the default parser) to a formatter
   * returning the template itself, for any type and input; the empty template
   * has no segment and does not compile.
   */
  lemma PlainText(reg: Registry, root: TypeId, s: string, provider: FormatProvider, host: Host, x: Value)
    requires '{' !in s
    ensures s == [] ==> Compile(NewCompiler(), reg, root, Some(s), Some(provider)) == Err(ArgumentNull("method"))
    ensures s != [] ==> Compile(NewCompiler(), reg, root, Some(s), Some(provider)) == Ok(Coalesced(Constant(s)))
    ensures s != [] ==> Run(reg, host, x, Compile(NewCompiler(), reg, root, Some(s), Some(provider)).value) == Returned(Str(s))
  {
    ParserExamples.NoBrace(s);
    DefaultParserScans(reg, root, s, provider);
  }

  /**
   * Text segments resolve to their literals whatever the type and binding,
   * and the concatenation of their values is their text, in order.
   */
  lemma {:induction false} TextsJoin(reg: Registry, host: Host, x: Value, root: TypeId, ignoreCase: bool,
                                     provider: FormatProvider, segs: seq<Segment>)
    requires forall i :: 0 <= i < |segs| ==> segs[i].TextSegment?
    ensures ResolveAll(reg, root, ignoreCase, provider, segs).Ok?
    ensures Joined(EvalAll(reg, host, x, ResolveAll(reg, root, ignoreCase, provider, segs).value)) == Returned(Str(Unparse(segs)))
    decreases |segs|
  {
    if segs != [] {
      TextsJoin(reg, host, x, root, ignoreCase, provider, segs[1..]);
      var tail := ResolveAll(reg, root, ignoreCase, provider, segs[1..]).value;
      var es := [Constant(segs[0].text)] + tail;
      assert ResolveAll(reg, root, ignoreCase, provider, segs).value == es;
      assert es[0] == Constant(segs[0].text) && es[1..] == tail;
      var vals := EvalAll(reg, host, x, tail).value;
      assert EvalAll(reg, host, x, es) == Some([Str(segs[0].text)] + vals);
      assert ([Str(segs[0].text)] + vals)[1..] == vals;
    }
  }

  /**
   * A parser that pushes only text segments, at least one, gives a formatter
   * returning their text for every type and input: the type is never consulted.
   */
  lemma TextOnly(c: FastStringFormatCompiler, reg: Registry, root: TypeId, formatString: string,
                 provider: FormatProvider, host: Host, x: Value)
    requires ParseWith(c.parser, formatString).error.None?
    requires var segs := ParseWith(c.parser, formatString).segments;
      |segs| >= 1 && forall i :: 0 <= i < |segs| ==> segs[i].TextSegment?
    ensures Compile(c, reg, root, Some(formatString), Some(provider)).Ok?
    ensures Run(reg, host, x, Compile(c, reg, root, Some(formatString), Some(provider)).value) ==
            Returned(Str(Unparse(ParseWith(c.parser, formatString).segments)))
  {
    var segs := ParseWith(c.parser, formatString).segments;
    TextsJoin(reg, host, x, root, true, provider, segs);
    var es := ResolveAll(reg, root, true, provider, segs).value;
    assert Prepare(c.parser, reg, root, Some(formatString), Some(provider)) == Ok(es);
    ResolveAllOk(reg, root, true, provider, segs);
    if |segs| == 1 {
      assert segs == [TextSegment(segs[0].text)];
      UnparseOne(segs[0]);
    }
    ConstantsFormat(reg, host, x, es, Unparse(segs));
  }

  /** Expressions whose values join to `t`, a lone one being the constant `t`, format as `t` in every tier. */
  lemma ConstantsFormat(reg: Registry, host: Host, x: Value, es: seq<Expr>, t: string)
    requires |es| >= 1 && Joined(EvalAll(reg, host, x, es)) == Returned(Str(t))
    requires |es| == 1 ==> es[0] == Constant(t)
    ensures |es| == 1 ==> Run(reg, host, x, CompileToSingleton(es[0])) == Returned(Str(t))
    ensures 2 <= |es| <= 4 ==> Run(reg, host, x, CompileToSingleConcat(es).value) == Returned(Str(t))
    ensures 4 < |es| ==> Run(reg, host, x, CompileToArrayConcat(es)) == Returned(Str(t))
  {
    if |es| > 1 {
      ConcatTiersInOrder(reg, host, x, es);
      JoinedInOrder(reg, host, x, es);
    }
  }
}
