/** The `NullCheckMode` option: what a compiled formatter does with a null value. */
module NullChecks {
  datatype NullCheckMode =
    /** No null checks are compiled in; a call on null throws. */
    | None
    /** A null value is replaced by the empty string. */
    | UseEmptyString
}

/**
 * `ParameterProvider<T>`: resolves a dotted property path against `T` one
 * link at a time, and wraps an expression in the null check the mode asks for.
 */
module Parameters {
  import opened Wrappers
  import opened Strings
  import opened Registry
  import opened Errors
  import opened Runtime
  import opened NullChecks

  /** The provider's three readonly fields: the parameter (of type `T`), the binding flags and the mode. */
  datatype ParameterProvider = ParameterProvider(parameterType: TypeId, ignoreCase: bool, nullCheckMode: NullCheckMode)

  /**
   * The expression for the path `links` followed from `instance`: each name is
   * looked up on the declared type of the expression built so far.
   */
  function Walk(reg: Registry, ignoreCase: bool, instance: Expr, links: seq<string>): Result<Expr, CompileError>
    decreases |links|
  {
    if links == [] then Ok(instance)
    else
      var t := TypeOf(instance);
      match FindGetter(reg, t, links[0], ignoreCase)
      case Missing => Err(PropertyNotFound(links[0], Some(t)))
      case Ambiguous => Err(AmbiguousMatch(links[0]))
      case Getter(p) => Walk(reg, ignoreCase, GetterCall(instance, p), links[1..])
  }

  /** `GetParameter(param)`: split on '.', then one getter call per link, starting from the parameter. */
  method GetParameter(reg: Registry, provider: ParameterProvider, param: string) returns (r: Result<Expr, CompileError>)
    ensures r == Walk(reg, provider.ignoreCase, Parameter(provider.parameterType), Split(param, '.'))
  {
    var props := Split(param, '.');
    var t := provider.parameterType;
    var callInstance := Parameter(provider.parameterType);
    var i := 0;
    while i < |props|
      invariant 0 <= i <= |props|
      invariant TypeOf(callInstance) == t
      invariant Walk(reg, provider.ignoreCase, callInstance, props[i..]) ==
                Walk(reg, provider.ignoreCase, Parameter(provider.parameterType), props)
    {
      assert props[i..][0] == props[i] && props[i..][1..] == props[i + 1..];
      WalkStep(reg, provider.ignoreCase, callInstance, props[i..]);
      match FindGetter(reg, t, props[i], provider.ignoreCase) {
        case Missing =>
          return Err(PropertyNotFound(props[i], Some(t)));
        case Ambiguous =>
          return Err(AmbiguousMatch(props[i]));
        case Getter(p) =>
          callInstance := GetterCall(callInstance, p);
          t := TypeOf(callInstance);
      }
      i := i + 1;
    }
    assert props[i..] == [];
    return Ok(callInstance);
  }

  /**
   * `WrapWithNullCheck(nullableExpression, processedExpression)`: under
   * `UseEmptyString` and a type that can be null, "" when the value is null
   * and the processed expression otherwise; no check in every other case.
   */
  function WrapWithNullCheck(reg: Registry, provider: ParameterProvider, nullable: Expr, processed: Expr): Expr
  {
    if !IsNullable(reg, TypeOf(nullable)) then processed
    else if provider.nullCheckMode.UseEmptyString? then NullCondition(nullable, processed)
    else processed
  }

  // ----- the path walk -----

  /** One link of the walk: the lookup on the current type decides the error or the next instance. */
  lemma WalkStep(reg: Registry, ignoreCase: bool, instance: Expr, links: seq<string>)
    requires links != []
    ensures var g := FindGetter(reg, TypeOf(instance), links[0], ignoreCase);
      && (g.Missing? ==> Walk(reg, ignoreCase, instance, links) == Err(PropertyNotFound(links[0], Some(TypeOf(instance)))))
      && (g.Ambiguous? ==> Walk(reg, ignoreCase, instance, links) == Err(AmbiguousMatch(links[0])))
      && (g.Getter? ==> Walk(reg, ignoreCase, instance, links) == Walk(reg, ignoreCase, GetterCall(instance, g.property), links[1..]))
  {
  }

  /** Walking a path in two pieces is walking the first, then the second from where it ended. */
  lemma {:induction false} WalkAppend(reg: Registry, ignoreCase: bool, instance: Expr, a: seq<string>, b: seq<string>)
    ensures Walk(reg, ignoreCase, instance, a + b) ==
      match Walk(reg, ignoreCase, instance, a)
      case Ok(e) => Walk(reg, ignoreCase, e, b)
      case Err(err) => Err(err)
    decreases |a|
  {
    if a == [] {
      assert a + b == b;
    } else {
      assert (a + b)[0] == a[0] && (a + b)[1..] == a[1..] + b;
      match FindGetter(reg, TypeOf(instance), a[0], ignoreCase)
      case Missing =>
      case Ambiguous =>
      case Getter(p) =>
        WalkAppend(reg, ignoreCase, GetterCall(instance, p), a[1..], b);
    }
  }

  /**
   * An unknown link ends the walk with an error naming that link and the type
   * it was looked up on, the declared type of the links before it.
   */
  lemma MissingLink(reg: Registry, ignoreCase: bool, instance: Expr, before: seq<string>, link: string, after: seq<string>, e: Expr)
    requires Walk(reg, ignoreCase, instance, before) == Ok(e)
    requires FindGetter(reg, TypeOf(e), link, ignoreCase).Missing?
    ensures Walk(reg, ignoreCase, instance, before + [link] + after) == Err(PropertyNotFound(link, Some(TypeOf(e))))
  {
    WalkAppend(reg, ignoreCase, instance, before, [link] + after);
    assert before + [link] + after == before + ([link] + after);
    assert ([link] + after)[0] == link && ([link] + after)[1..] == after;
  }

  /**
   * Conversely, a not-found error names a link of the path, and the type it
   * names is the declared type reached by the links in front of it.
   */
  lemma {:induction false} NotFoundLink(reg: Registry, ignoreCase: bool, instance: Expr, links: seq<string>, link: string, t: TypeId)
      returns (k: nat, e: Expr)
    requires Walk(reg, ignoreCase, instance, links) == Err(PropertyNotFound(link, Some(t)))
    ensures k < |links| && links[k] == link
    ensures Walk(reg, ignoreCase, instance, links[..k]) == Ok(e)
    ensures TypeOf(e) == t && FindGetter(reg, t, link, ignoreCase).Missing?
    decreases |links|
  {
    assert links != [];
    WalkStep(reg, ignoreCase, instance, links);
    var g := FindGetter(reg, TypeOf(instance), links[0], ignoreCase);
    if g.Getter? {
      var k', e' := NotFoundLink(reg, ignoreCase, GetterCall(instance, g.property), links[1..], link, t);
      k, e := k' + 1, e';
      assert links[..k][0] == links[0] && links[..k][1..] == links[1..][..k'];
    } else {
      k, e := 0, instance;
      assert links[..0] == [];
    }
  }

  /** A name without dots is a one-link path: the getter applied straight to the input. */
  lemma SingleLink(reg: Registry, provider: ParameterProvider, name: string, p: Property)
    requires '.' !in name
    requires FindGetter(reg, provider.parameterType, name, provider.ignoreCase) == Getter(p)
    ensures Walk(reg, provider.ignoreCase, Parameter(provider.parameterType), Split(name, '.')) ==
            Ok(GetterCall(Parameter(provider.parameterType), p))
    ensures forall host: Host, x: Value :: x != Null ==>
      Eval(reg, host, x, GetterCall(Parameter(provider.parameterType), p)) == Returned(host.getter(x, p))
  {
    SplitWithoutSeparator(name, '.');
    assert [name][1..] == [];
  }

  /** Names without dots joined by '.' split back into the same names, so a path is walked link by link. */
  lemma {:induction false} SplitJoin(names: seq<string>)
    requires |names| >= 1
    requires forall i :: 0 <= i < |names| ==> '.' !in names[i]
    ensures Split(Join(names, '.'), '.') == names
    decreases |names|
  {
    if |names| == 1 {
      SplitWithoutSeparator(names[0], '.');
    } else {
      var s := Join(names, '.');
      var n := names[0];
      assert s == n + ['.'] + Join(names[1..], '.');
      NotInSlice(s, '.', 0, |n|);
      assert s[..|n|] == n;
      IndexOfAt(s, '.', 0, |n|);
      assert s[|n| + 1..] == Join(names[1..], '.');
      SplitJoin(names[1..]);
    }
  }

  /** Walking keeps every parameter node the formatter's own. */
  lemma {:induction false} WalkRooted(reg: Registry, ignoreCase: bool, instance: Expr, links: seq<string>, root: TypeId)
    requires Rooted(instance, root)
    requires Walk(reg, ignoreCase, instance, links).Ok?
    ensures Rooted(Walk(reg, ignoreCase, instance, links).value, root)
    decreases |links|
  {
    if links != [] {
      var g := FindGetter(reg, TypeOf(instance), links[0], ignoreCase);
      WalkRooted(reg, ignoreCase, GetterCall(instance, g.property), links[1..], root);
    }
  }

  /**
   * Intermediate links are dereferenced without a check: once a link's value
   * is null (or its evaluation threw), every longer path throws.
   */
  lemma {:induction false} NullLinkFaults(reg: Registry, host: Host, x: Value, ignoreCase: bool, e: Expr, links: seq<string>)
    requires links != []
    requires Walk(reg, ignoreCase, e, links).Ok?
    requires Eval(reg, host, x, e).Faulted? || Eval(reg, host, x, e).value.Null?
    ensures Eval(reg, host, x, Walk(reg, ignoreCase, e, links).value) == Faulted
    decreases |links|
  {
    var g := FindGetter(reg, TypeOf(e), links[0], ignoreCase);
    var next := GetterCall(e, g.property);
    if links[1..] != [] {
      NullLinkFaults(reg, host, x, ignoreCase, next, links[1..]);
    }
  }

  // ----- the null check -----

  /** With a non-null value, or outside `UseEmptyString`, the wrapped expression computes the processed one. */
  lemma WrapPasses(reg: Registry, host: Host, x: Value, provider: ParameterProvider, nullable: Expr, processed: Expr)
    requires provider.nullCheckMode.None? || !IsNullable(reg, TypeOf(nullable))
             || (Eval(reg, host, x, nullable).Returned? && !Eval(reg, host, x, nullable).value.Null?)
    ensures Eval(reg, host, x, WrapWithNullCheck(reg, provider, nullable, processed)) == Eval(reg, host, x, processed)
  {
  }

  /** Under `UseEmptyString`, a null value of a nullable type becomes "". */
  lemma WrapNull(reg: Registry, host: Host, x: Value, provider: ParameterProvider, nullable: Expr, processed: Expr)
    requires provider.nullCheckMode.UseEmptyString? && IsNullable(reg, TypeOf(nullable))
    requires Eval(reg, host, x, nullable) == Returned(Null)
    ensures Eval(reg, host, x, WrapWithNullCheck(reg, provider, nullable, processed)) == Returned(Str(""))
  {
  }

  /**
   * Skipping the check for a type that cannot be null loses nothing: the
   * guarded expression would compute the same as the processed one.
   */
  lemma SkipIsSound(reg: Registry, host: Host, x: Value, root: TypeId, nullable: Expr, processed: Expr)
    requires WellTyped(reg, host) && Fits(reg, x, root) && Rooted(nullable, root)
    requires !IsNullable(reg, TypeOf(nullable))
    requires Eval(reg, host, x, nullable).Returned?
    ensures Eval(reg, host, x, NullCondition(nullable, processed)) == Eval(reg, host, x, processed)
  {
    EvalFits(reg, host, x, root, nullable);
  }
}
