/**
 * What the compiler learns about the input type by reflection, as an
 * abstract type registry: for each type id, its public instance properties
 * (name, declared type, whether the get accessor is public) and the few
 * flags the core inspects.
 */
module Registry {
  import opened Strings

  type TypeId = string

  /** `typeof(string)`. */
  const StringType: TypeId := "System.String"

  /** `typeof(IFormattable)`. */
  const FormattableType: TypeId := "System.IFormattable"

  /** A public instance property as `Type.GetProperty` reports it. */
  datatype Property = Property(name: string, propertyType: TypeId, hasPublicGetter: bool)

  datatype TypeInfo = TypeInfo(
    properties: seq<Property>,   // public instance properties, declared and inherited
    isValueType: bool,           // `Type.IsValueType`
    isNullableWrapper: bool,     // `Nullable.GetUnderlyingType(type) != null`
    interfaces: seq<TypeId>,     // `Type.GetInterfaces()`
    hasToString: bool,           // `GetMethod("ToString", new Type[0])` finds a public method (not so on an interface type)
    hasFormattedToString: bool)  // `GetMethod("ToString", { string, IFormatProvider })` finds a public method

  type Registry = map<TypeId, TypeInfo>

  /**
   * `IFormattable` is fixed by the platform: an interface with no properties
   * whose one method is `ToString(string, IFormatProvider)`, so reflection on
   * it finds no parameterless `ToString`. A type the registry does not
   * describe behaves as a class with no public properties: it inherits
   * `Object.ToString()` and has no formatted `ToString`.
   */
  function Info(reg: Registry, t: TypeId): (info: TypeInfo)
    ensures t == FormattableType ==> !info.hasToString && info.hasFormattedToString && info.properties == []
    ensures t != FormattableType && t !in reg ==> info.properties == [] && info.hasToString && !info.hasFormattedToString
  {
    if t == FormattableType then TypeInfo([], false, false, [], false, true)
    else if t in reg then reg[t]
    else TypeInfo([], false, false, [], true, false)
  }

  /** Name comparison under the binding flags: ordinal, or ordinal after case folding with `IgnoreCase`. */
  predicate NameMatches(declared: string, requested: string, ignoreCase: bool)
  {
    if ignoreCase then FoldCase(declared) == FoldCase(requested) else declared == requested
  }

  /** The properties of `props` that a lookup of `requested` matches, in declaration order. */
  function Matching(props: seq<Property>, requested: string, ignoreCase: bool): (r: seq<Property>)
    ensures forall p :: p in r <==> p in props && NameMatches(p.name, requested, ignoreCase)
    ensures |r| <= |props|
  {
    if props == [] then []
    else
      var rest := Matching(props[1..], requested, ignoreCase);
      assert forall p :: p in props <==> p == props[0] || p in props[1..];
      if NameMatches(props[0].name, requested, ignoreCase) then [props[0]] + rest else rest
  }

  /** What `type.GetProperty(name, flags)?.GetGetMethod()` ends in. */
  datatype GetterLookup =
    | Getter(property: Property)   // one match, with a public get accessor
    | Missing                      // no match, or a match without a public get accessor: null
    | Ambiguous                    // several matches: AmbiguousMatchException

  function FindGetter(reg: Registry, t: TypeId, name: string, ignoreCase: bool): (r: GetterLookup)
    ensures r.Getter? ==>
      && r.property in Info(reg, t).properties
      && NameMatches(r.property.name, name, ignoreCase)
      && r.property.hasPublicGetter
    ensures (forall p :: p in Info(reg, t).properties ==> !NameMatches(p.name, name, ignoreCase)) ==> r.Missing?
    ensures var m := Matching(Info(reg, t).properties, name, ignoreCase);
      && (r.Ambiguous? <==> |m| > 1)
      && (r.Missing? <==> |m| == 0 || (|m| == 1 && !m[0].hasPublicGetter))
      && (r.Getter? ==> r.property == m[0])
  {
    var m := Matching(Info(reg, t).properties, name, ignoreCase);
    assert |m| > 0 ==> m[0] in m;
    if |m| == 0 then Missing
    else if |m| > 1 then Ambiguous
    else if m[0].hasPublicGetter then Getter(m[0])
    else Missing
  }

  /** A lookup finds the one property whose name matches, whatever else the type declares. */
  lemma FindUnique(reg: Registry, t: TypeId, name: string, ignoreCase: bool, p: Property)
    requires p in Info(reg, t).properties && NameMatches(p.name, name, ignoreCase) && p.hasPublicGetter
    requires forall q :: q in Info(reg, t).properties && NameMatches(q.name, name, ignoreCase) ==> q == p
    requires multiset(Info(reg, t).properties)[p] == 1
    ensures FindGetter(reg, t, name, ignoreCase) == Getter(p)
  {
    var props := Info(reg, t).properties;
    var m := Matching(props, name, ignoreCase);
    MatchingCount(props, name, ignoreCase, p);
    assert p in m;
  }

  lemma {:induction false} MatchingCount(props: seq<Property>, name: string, ignoreCase: bool, p: Property)
    requires NameMatches(p.name, name, ignoreCase)
    requires forall q :: q in props && NameMatches(q.name, name, ignoreCase) ==> q == p
    ensures |Matching(props, name, ignoreCase)| == multiset(props)[p]
  {
    if props != [] {
      assert props == [props[0]] + props[1..];
      assert multiset(props) == multiset([props[0]]) + multiset(props[1..]);
      MatchingCount(props[1..], name, ignoreCase, p);
      if NameMatches(props[0].name, name, ignoreCase) {
        assert props[0] == p;
      }
    }
  }

  /**
   * `ParameterProvider.IsNullable`: reference types and `Nullable<U>` can hold
   * null, other value types cannot.
   */
  predicate IsNullable(reg: Registry, t: TypeId)
  {
    if !Info(reg, t).isValueType then true
    else if Info(reg, t).isNullableWrapper then true
    else false
  }

  /** The check `FormattedParamSegment` applies: the type is `IFormattable` or implements it. */
  predicate IsFormattable(reg: Registry, t: TypeId)
  {
    t == FormattableType || FormattableType in Info(reg, t).interfaces
  }
}
