/**
 * `ISegment.ToExpression<T>` for the three segment kinds, as the segment
 * classes do it: one property lookup of the whole parameter name on `T`,
 * with the compiler's binding flags, and no null check.
 */
module Resolution {
  import opened Wrappers
  import opened Segments
  import opened Registry
  import opened Errors
  import opened Runtime

  /** `TextSegment.ToExpression`: the literal as a constant. */
  function TextToExpression(text: string): Expr
  {
    Constant(text)
  }

  /**
   * `ParamSegment.ToExpression`: the getter, passed through when it returns a
   * string, else its `ToString()`; when the lookup of `ToString()` finds no
   * public method, `Expression.Call` is handed null and throws.
   */
  function ParamToExpression(reg: Registry, root: TypeId, ignoreCase: bool, param: string): Result<Expr, CompileError>
  {
    match FindGetter(reg, root, param, ignoreCase)
    case Missing => Err(PropertyNotFound(param, None))
    case Ambiguous => Err(AmbiguousMatch(param))
    case Getter(p) =>
      var get := GetterCall(Parameter(root), p);
      if p.propertyType == StringType then Ok(get)
      else if !Info(reg, p.propertyType).hasToString then Err(ArgumentNull("method"))
      else Ok(ToStringCall(get))
  }

  /**
   * `FormattedParamSegment.ToExpression`: the getter, then `ToString(format,
   * provider)` on an `IFormattable`; when that overload is not a public method
   * of the declared type (an interface deriving from `IFormattable`, an explicit
   * implementation), `Expression.Call` is handed null and throws.
   */
  function FormattedToExpression(reg: Registry, root: TypeId, ignoreCase: bool, provider: FormatProvider,
                                 param: string, format: string): Result<Expr, CompileError>
  {
    match FindGetter(reg, root, param, ignoreCase)
    case Missing => Err(PropertyNotFound(param, None))
    case Ambiguous => Err(AmbiguousMatch(param))
    case Getter(p) =>
      if !IsFormattable(reg, p.propertyType) then Err(NotFormattable(param))
      else if !Info(reg, p.propertyType).hasFormattedToString then Err(ArgumentNull("method"))
      else Ok(FormattedToStringCall(GetterCall(Parameter(root), p), format, provider))
  }

  /** `ISegment.ToExpression<T>(parameter, bindingFlags, formatProviderExpression)`, with `T` = `root`. */
  function ToExpression(reg: Registry, root: TypeId, ignoreCase: bool, provider: FormatProvider, seg: Segment): Result<Expr, CompileError>
  {
    match seg
    case TextSegment(t) => Ok(TextToExpression(t))
    case ParamSegment(p) => ParamToExpression(reg, root, ignoreCase, p)
    case FormattedParamSegment(p, f) => FormattedToExpression(reg, root, ignoreCase, provider, p, f)
  }

  /**
   * A text segment always resolves, and its value is its literal whatever the
   * registry, the input type and value, the binding flags and the provider.
   */
  lemma TextResolves(reg: Registry, root: TypeId, ignoreCase: bool, provider: FormatProvider, text: string)
    ensures ToExpression(reg, root, ignoreCase, provider, TextSegment(text)).Ok?
    ensures forall host: Host, x: Value ::
      Eval(reg, host, x, ToExpression(reg, root, ignoreCase, provider, TextSegment(text)).value) == Returned(Str(text))
  {
  }

  /** What the getter of `p`, then `ToString()` unless it returns a string, yields on input `x`. */
  function ParamValue(reg: Registry, host: Host, x: Value, p: Property): Outcome
  {
    if x.Null? then Faulted
    else if p.propertyType == StringType then Returned(host.getter(x, p))
    else CallToString(reg, host, p.propertyType, host.getter(x, p))
  }

  /**
   * A param segment resolves exactly when the whole name, dots included, finds
   * one property with a public getter on `T` whose type is string or has a
   * public `ToString()`; a missing property names the parameter (and no type);
   * the value is the getter's result, unchanged when it is a string and its
   * `ToString()` otherwise; the format provider plays no part.
   */
  lemma ParamResolves(reg: Registry, root: TypeId, ignoreCase: bool, provider: FormatProvider, param: string)
    ensures var r := ToExpression(reg, root, ignoreCase, provider, ParamSegment(param));
      var g := FindGetter(reg, root, param, ignoreCase);
      && (r.Ok? <==> g.Getter? && (g.property.propertyType == StringType || Info(reg, g.property.propertyType).hasToString))
      && (g.Missing? ==> r == Err(PropertyNotFound(param, None)))
      && (g.Ambiguous? ==> r == Err(AmbiguousMatch(param)))
      && (g.Getter? && g.property.propertyType != StringType && !Info(reg, g.property.propertyType).hasToString ==>
            r == Err(ArgumentNull("method")))
      && (r.Ok? ==> forall host: Host, x: Value ::
            Eval(reg, host, x, r.value) == ParamValue(reg, host, x, FindGetter(reg, root, param, ignoreCase).property))
      && (forall other: FormatProvider :: r == ToExpression(reg, root, ignoreCase, other, ParamSegment(param)))
  {
    var g := FindGetter(reg, root, param, ignoreCase);
    if g.Getter? && (g.property.propertyType == StringType || Info(reg, g.property.propertyType).hasToString) {
      var get := GetterCall(Parameter(root), g.property);
      var e := ToExpression(reg, root, ignoreCase, provider, ParamSegment(param)).value;
      forall host: Host, x: Value
        ensures Eval(reg, host, x, e) == ParamValue(reg, host, x, g.property)
      {
        assert Eval(reg, host, x, Parameter(root)) == Returned(x);
        assert Eval(reg, host, x, get) == if x.Null? then Faulted else Returned(host.getter(x, g.property));
      }
    }
  }

  /**
   * A formatted segment resolves exactly when the lookup finds a getter whose
   * type is `IFormattable` or implements it and has a public
   * `ToString(string, IFormatProvider)`; the lookup comes first, so a missing
   * name is reported as not found even when a format is given, and the
   * `IFormattable` test comes before the method lookup; the value is the
   * getter's result formatted with the stored format and the compile-time provider.
   */
  lemma FormattedResolves(reg: Registry, root: TypeId, ignoreCase: bool, provider: FormatProvider, param: string, format: string)
    ensures var r := ToExpression(reg, root, ignoreCase, provider, FormattedParamSegment(param, format));
      var g := FindGetter(reg, root, param, ignoreCase);
      && (r.Ok? <==> g.Getter? && IsFormattable(reg, g.property.propertyType) && Info(reg, g.property.propertyType).hasFormattedToString)
      && (g.Missing? ==> r == Err(PropertyNotFound(param, None)))
      && (g.Ambiguous? ==> r == Err(AmbiguousMatch(param)))
      && (g.Getter? && !IsFormattable(reg, g.property.propertyType) ==> r == Err(NotFormattable(param)))
      && (g.Getter? && IsFormattable(reg, g.property.propertyType) && !Info(reg, g.property.propertyType).hasFormattedToString ==>
            r == Err(ArgumentNull("method")))
      && (r.Ok? ==> forall host: Host, x: Value ::
            Eval(reg, host, x, r.value) ==
              if x.Null? || host.getter(x, g.property).Null? then Faulted
              else Returned(Str(host.toStringFormatted(host.getter(x, g.property), format, provider))))
  {
    var g := FindGetter(reg, root, param, ignoreCase);
    if g.Getter? {
      forall host: Host, x: Value
        ensures Eval(reg, host, x, GetterCall(Parameter(root), g.property)) ==
                  if x.Null? then Faulted else Returned(host.getter(x, g.property))
      {
        assert Eval(reg, host, x, Parameter(root)) == Returned(x);
      }
    }
  }

  /**
   * A property declared as `IFormattable` itself takes a format, since the
   * interface declares `ToString(string, IFormatProvider)`; a plain `{name}`
   * on it fails, since reflection on an interface finds no parameterless `ToString`.
   */
  lemma FormattableInterfaceProperty(reg: Registry, root: TypeId, ignoreCase: bool, provider: FormatProvider,
                                     param: string, format: string)
    requires FindGetter(reg, root, param, ignoreCase).Getter?
    requires FindGetter(reg, root, param, ignoreCase).property.propertyType == FormattableType
    ensures ToExpression(reg, root, ignoreCase, provider, FormattedParamSegment(param, format)).Ok?
    ensures ToExpression(reg, root, ignoreCase, provider, ParamSegment(param)) == Err(ArgumentNull("method"))
  {
  }

  /** Resolved segments are string-typed and mention no parameter but the formatter's own. */
  lemma ResolvedIsString(reg: Registry, root: TypeId, ignoreCase: bool, provider: FormatProvider, seg: Segment)
    requires ToExpression(reg, root, ignoreCase, provider, seg).Ok?
    ensures var e := ToExpression(reg, root, ignoreCase, provider, seg).value;
      TypeOf(e) == StringType && Rooted(e, root)
  {
  }

  /** The value of a resolved segment is a string or null, never another object. */
  lemma ResolvedValue(reg: Registry, host: Host, x: Value, root: TypeId, ignoreCase: bool, provider: FormatProvider, seg: Segment)
    requires WellTyped(reg, host) && Fits(reg, x, root)
    requires ToExpression(reg, root, ignoreCase, provider, seg).Ok?
    ensures var out := Eval(reg, host, x, ToExpression(reg, root, ignoreCase, provider, seg).value);
      out.Returned? ==> !out.value.Obj?
  {
    var e := ToExpression(reg, root, ignoreCase, provider, seg).value;
    ResolvedIsString(reg, root, ignoreCase, provider, seg);
    EvalFits(reg, host, x, root, e);
  }
}
