/**
 * The run-time side of a compiled formatter: the values it handles, the
 * library calls it makes, and the expressions the segments compile to,
 * read by an interpreter in place of the compiled expression tree.
 */
module Runtime {
  import opened Registry

  /** A run-time value: null (a null reference or an empty `Nullable<U>`), a string, or any other object. */
  datatype Value = Null | Str(text: string) | Obj(handle: nat)

  /** An `IFormatProvider` instance, fixed when the template is compiled. */
  type FormatProvider = nat

  /**
   * The library code the formatter calls into, left uninterpreted:
   * property get accessors, `ToString()` and `IFormattable.ToString(format, provider)`.
   */
  datatype Host = Host(
    getter: (Value, Property) -> Value,
    toString: Value -> string,
    toStringFormatted: (Value, string, FormatProvider) -> string)

  /** The expression shapes the core builds. */
  datatype Expr =
    /** `Expression.Constant(text)`. */
    | Constant(text: string)
    /** The formatter's one parameter, of type `T`. */
    | Parameter(parameterType: TypeId)
    /** `Expression.Call(instance, getMethod)`. */
    | GetterCall(instance: Expr, property: Property)
    /** `Expression.Call(instance, ToString())`. */
    | ToStringCall(instance: Expr)
    /** `Expression.Call(instance, ToString(string, IFormatProvider), Constant(format), Constant(provider))`. */
    | FormattedToStringCall(instance: Expr, format: string, provider: FormatProvider)
    /** `Expression.Condition(Equal(test, null), Constant(""), processed)`. */
    | NullCondition(test: Expr, processed: Expr)

  /** The static type of an expression (`Expression.Type`). */
  function TypeOf(e: Expr): TypeId
  {
    match e
    case Constant(_) => StringType
    case Parameter(t) => t
    case GetterCall(_, p) => p.propertyType
    case ToStringCall(_) => StringType
    case FormattedToStringCall(_, _, _) => StringType
    case NullCondition(_, processed) => TypeOf(processed)
  }

  /** What running an expression ends in: a value, or an exception (a call on null). */
  datatype Outcome = Returned(value: Value) | Faulted

  /** `ToString()` on a value of static type `t`: on null only `Nullable<U>` answers, with "". */
  function CallToString(reg: Registry, host: Host, t: TypeId, v: Value): Outcome
  {
    if v.Null? then (if Info(reg, t).isNullableWrapper then Returned(Str("")) else Faulted)
    else Returned(Str(host.toString(v)))
  }

  /** The value of `e` when the formatter is invoked on `x`; operands are evaluated left to right. */
  function Eval(reg: Registry, host: Host, x: Value, e: Expr): Outcome
  {
    match e
    case Constant(t) => Returned(Str(t))
    case Parameter(_) => Returned(x)
    case GetterCall(instance, p) =>
      var v := Eval(reg, host, x, instance);
      if v.Faulted? || v.value.Null? then Faulted else Returned(host.getter(v.value, p))
    case ToStringCall(instance) =>
      var v := Eval(reg, host, x, instance);
      if v.Faulted? then Faulted else CallToString(reg, host, TypeOf(instance), v.value)
    case FormattedToStringCall(instance, format, provider) =>
      var v := Eval(reg, host, x, instance);
      if v.Faulted? || v.value.Null? then Faulted
      else Returned(Str(host.toStringFormatted(v.value, format, provider)))
    case NullCondition(test, processed) =>
      var v := Eval(reg, host, x, test);
      if v.Faulted? then Faulted
      else if v.value.Null? then Returned(Str(""))
      else Eval(reg, host, x, processed)
  }

  /** A value fits a static type: only nullable types hold null, and a string-typed value is a string or null. */
  predicate Fits(reg: Registry, v: Value, t: TypeId)
  {
    && (v.Null? ==> IsNullable(reg, t))
    && (t == StringType ==> !v.Obj?)
  }

  /** The type system's promise about the host: every getter returns a value of its declared type. */
  ghost predicate WellTyped(reg: Registry, host: Host)
  {
    forall v: Value, p: Property :: v != Null ==> Fits(reg, host.getter(v, p), p.propertyType)
  }

  /** Every parameter node in `e` is the formatter's parameter of type `root`. */
  predicate Rooted(e: Expr, root: TypeId)
  {
    match e
    case Constant(_) => true
    case Parameter(t) => t == root
    case GetterCall(instance, _) => Rooted(instance, root)
    case ToStringCall(instance) => Rooted(instance, root)
    case FormattedToStringCall(instance, _, _) => Rooted(instance, root)
    case NullCondition(test, processed) => Rooted(test, root) && Rooted(processed, root)
  }

  /** Type soundness: a value an expression returns fits the expression's static type. */
  lemma {:induction false} EvalFits(reg: Registry, host: Host, x: Value, root: TypeId, e: Expr)
    requires WellTyped(reg, host) && Fits(reg, x, root) && Rooted(e, root)
    ensures Eval(reg, host, x, e).Returned? ==> Fits(reg, Eval(reg, host, x, e).value, TypeOf(e))
  {
    match e
    case Constant(_) =>
    case Parameter(_) =>
    case GetterCall(instance, p) =>
      EvalFits(reg, host, x, root, instance);
    case ToStringCall(instance) =>
    case FormattedToStringCall(instance, _, _) =>
    case NullCondition(test, processed) =>
      EvalFits(reg, host, x, root, processed);
  }

  /** A value as a `String.Concat` argument: a null string counts as empty. */
  function Piece(v: Value): string
  {
    if v.Str? then v.text else ""
  }
}
