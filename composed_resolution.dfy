/**
 * A composed resolver, kept apart from the segments as they are written: the
 * wiring the segment unit tests describe, where a segment asks the
 * `ParameterProvider` for its (dotted) path, builds the string expression
 * from what it gets, and hands both to `WrapWithNullCheck`. The segment
 * classes in `Resolution` do not do this; the lemmas below relate the two.
 */
module ComposedResolution {
  import opened Wrappers
  import opened Strings
  import opened Segments
  import opened Registry
  import opened Errors
  import opened Runtime
  import opened Resolution
  import opened NullChecks
  import opened Parameters

  /** The expression for the whole path of a parameter name, from the provider's parameter. */
  function PathExpression(reg: Registry, provider: ParameterProvider, param: string): Result<Expr, CompileError>
  {
    Walk(reg, provider.ignoreCase, Parameter(provider.parameterType), Split(param, '.'))
  }

  /**
   * A segment resolved through the provider: path, then `ToString` (whose
   * lookup can find no public method, as in the segments), then the null check.
   */
  function ComposedToExpression(reg: Registry, provider: ParameterProvider, formatProvider: FormatProvider, seg: Segment)
    : Result<Expr, CompileError>
  {
    match seg
    case TextSegment(t) => Ok(TextToExpression(t))
    case ParamSegment(p) =>
      (match PathExpression(reg, provider, p)
       case Err(e) => Err(e)
       case Ok(e) =>
         if TypeOf(e) != StringType && !Info(reg, TypeOf(e)).hasToString then Err(ArgumentNull("method"))
         else Ok(WrapWithNullCheck(reg, provider, e, if TypeOf(e) == StringType then e else ToStringCall(e))))
    case FormattedParamSegment(p, f) =>
      (match PathExpression(reg, provider, p)
       case Err(e) => Err(e)
       case Ok(e) =>
         if !IsFormattable(reg, TypeOf(e)) then Err(NotFormattable(p))
         else if !Info(reg, TypeOf(e)).hasFormattedToString then Err(ArgumentNull("method"))
         else Ok(WrapWithNullCheck(reg, provider, e, FormattedToStringCall(e, f, formatProvider))))
  }

  /**
   * A text segment never consults the provider: whatever the provider and the
   * format provider, it resolves to its literal.
   */
  lemma ComposedText(reg: Registry, provider: ParameterProvider, formatProvider: FormatProvider, text: string, host: Host, x: Value)
    ensures var r := ComposedToExpression(reg, provider, formatProvider, TextSegment(text));
      && r == ToExpression(reg, provider.parameterType, provider.ignoreCase, formatProvider, TextSegment(text))
      && Eval(reg, host, x, r.value) == Returned(Str(text))
  {
  }

  /**
   * On a name without dots the composed resolver and the segment classes look
   * up the same property and fail or succeed together; a not-found error now
   * names the type searched; a success is the segment's own expression inside
   * the provider's null check.
   */
  lemma ComposedAgrees(reg: Registry, provider: ParameterProvider, formatProvider: FormatProvider, seg: Segment)
    requires !seg.TextSegment? && '.' !in seg.param
    ensures var composed := ComposedToExpression(reg, provider, formatProvider, seg);
      var shown := ToExpression(reg, provider.parameterType, provider.ignoreCase, formatProvider, seg);
      var g := FindGetter(reg, provider.parameterType, seg.param, provider.ignoreCase);
      && (composed.Ok? <==> shown.Ok?)
      && (g.Missing? ==> composed == Err(PropertyNotFound(seg.param, Some(provider.parameterType))))
      && (!g.Missing? && composed.Err? ==> composed == shown)
      && (composed.Ok? ==>
            composed.value == WrapWithNullCheck(reg, provider, GetterCall(Parameter(provider.parameterType), g.property), shown.value))
  {
    var p := seg.param;
    SplitWithoutSeparator(p, '.');
    var g := FindGetter(reg, provider.parameterType, p, provider.ignoreCase);
    if g.Getter? {
      SingleLink(reg, provider, p, g.property);
    }
  }

  /** Under `None` a name without dots resolves exactly as the segment classes do, apart from the error's type. */
  lemma NoneModeIsShown(reg: Registry, provider: ParameterProvider, formatProvider: FormatProvider, seg: Segment)
    requires provider.nullCheckMode.None?
    requires !seg.TextSegment? && '.' !in seg.param
    ensures var composed := ComposedToExpression(reg, provider, formatProvider, seg);
      var shown := ToExpression(reg, provider.parameterType, provider.ignoreCase, formatProvider, seg);
      composed.Ok? ==> composed == shown
  {
    ComposedAgrees(reg, provider, formatProvider, seg);
  }

  /**
   * Under `UseEmptyString`, a path whose type can be null and whose value is
   * null makes the segment "", where the unguarded expression would give null
   * (a string) or throw (`ToString` on null).
   */
  lemma NullBecomesEmpty(reg: Registry, provider: ParameterProvider, formatProvider: FormatProvider, seg: Segment,
                         host: Host, x: Value)
    requires provider.nullCheckMode.UseEmptyString?
    requires !seg.TextSegment?
    requires ComposedToExpression(reg, provider, formatProvider, seg).Ok?
    requires var e := PathExpression(reg, provider, seg.param).value;
      IsNullable(reg, TypeOf(e)) && Eval(reg, host, x, e) == Returned(Null)
    ensures Eval(reg, host, x, ComposedToExpression(reg, provider, formatProvider, seg).value) == Returned(Str(""))
  {
    var e := PathExpression(reg, provider, seg.param).value;
    var processed := if seg.ParamSegment? then (if TypeOf(e) == StringType then e else ToStringCall(e))
                     else FormattedToStringCall(e, seg.format, formatProvider);
    WrapNull(reg, host, x, provider, e, processed);
  }

  /** A path value that is not null is passed on unchanged: the check computes the unguarded expression. */
  lemma NonNullPasses(reg: Registry, provider: ParameterProvider, formatProvider: FormatProvider, seg: Segment,
                      host: Host, x: Value)
    requires !seg.TextSegment?
    requires ComposedToExpression(reg, provider, formatProvider, seg).Ok?
    requires var out := Eval(reg, host, x, PathExpression(reg, provider, seg.param).value);
      out.Returned? && !out.value.Null?
    ensures var e := PathExpression(reg, provider, seg.param).value;
      Eval(reg, host, x, ComposedToExpression(reg, provider, formatProvider, seg).value) ==
        if seg.ParamSegment? then Eval(reg, host, x, if TypeOf(e) == StringType then e else ToStringCall(e))
        else Eval(reg, host, x, FormattedToStringCall(e, seg.format, formatProvider))
  {
    var e := PathExpression(reg, provider, seg.param).value;
    var processed := if seg.ParamSegment? then (if TypeOf(e) == StringType then e else ToStringCall(e))
                     else FormattedToStringCall(e, seg.format, formatProvider);
    WrapPasses(reg, host, x, provider, e, processed);
  }

  /**
   * Only the last link is checked: when a link before the last one is null,
   * the segment throws even under `UseEmptyString`.
   */
  lemma InnerNullFaults(reg: Registry, provider: ParameterProvider, formatProvider: FormatProvider, seg: Segment,
                        host: Host, x: Value, before: seq<string>, after: seq<string>, inner: Expr)
    requires !seg.TextSegment?
    requires Split(seg.param, '.') == before + after && after != []
    requires Walk(reg, provider.ignoreCase, Parameter(provider.parameterType), before) == Ok(inner)
    requires Eval(reg, host, x, inner) == Returned(Null)
    requires ComposedToExpression(reg, provider, formatProvider, seg).Ok?
    ensures Eval(reg, host, x, ComposedToExpression(reg, provider, formatProvider, seg).value) == Faulted
  {
    WalkAppend(reg, provider.ignoreCase, Parameter(provider.parameterType), before, after);
    var e := PathExpression(reg, provider, seg.param).value;
    assert e == Walk(reg, provider.ignoreCase, inner, after).value;
    NullLinkFaults(reg, host, x, provider.ignoreCase, inner, after);
    var processed := if seg.ParamSegment? then (if TypeOf(e) == StringType then e else ToStringCall(e))
                     else FormattedToStringCall(e, seg.format, formatProvider);
    FaultCarries(reg, host, x, provider, e, processed);
    assert ComposedToExpression(reg, provider, formatProvider, seg).value == WrapWithNullCheck(reg, provider, e, processed);
  }

  /** A path that throws makes every expression built on it throw, guarded or not. */
  lemma FaultCarries(reg: Registry, host: Host, x: Value, provider: ParameterProvider, e: Expr, processed: Expr)
    requires Eval(reg, host, x, e) == Faulted
    requires processed == e || processed == ToStringCall(e) || (processed.FormattedToStringCall? && processed.instance == e)
    ensures Eval(reg, host, x, WrapWithNullCheck(reg, provider, e, processed)) == Faulted
  {
    assert Eval(reg, host, x, processed) == Faulted;
  }
}
