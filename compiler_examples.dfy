/**
 * The compilers on the data object of the integration tests and on the
 * stub parsers of the compiler's unit tests.
 */
module CompilerExamples {
  import opened Wrappers
  import opened Strings
  import opened Segments
  import opened DefaultFormatParser
  import opened Registry
  import opened Errors
  import opened Runtime
  import opened Resolution
  import opened Formatting
  import ParserProperties
  import FastCompiler
  import LegacyCompiler

  const DataObject: TypeId := "DataObject"
  const DateTime: TypeId := "System.DateTime"
  const Boolean: TypeId := "System.Boolean"

  const Forename := Property("Forename", StringType, true)
  const Surname := Property("Surname", StringType, true)
  const Dob := Property("Dob", DateTime, true)
  const LikesCats := Property("LikesCats", Boolean, true)
  const NullString := Property("NullString", StringType, true)

  /**
   * `DataObject` and the types of its properties: `DateTime` is formattable,
   * `bool` is not. Only the properties the modelled rows read are listed; the
   * `NullObject` and `Coordinates` properties serve the dotted-path rows,
   * which these compilers do not resolve. The `{forename}` row of the smaller
   * integration test reads the same `Forename` property of its own data
   * object, so it is stated on this one.
   */
  const Types: Registry := map[
    DataObject := TypeInfo([Forename, Surname, Dob, LikesCats, NullString], false, false, [], true, false),
    DateTime := TypeInfo([], true, false, [FormattableType], true, true),
    Boolean := TypeInfo([], true, false, [], true, false)]

  const Fast := FastCompiler.NewCompiler()
  const Legacy := LegacyCompiler.NewCompiler()

  /**
   * Names a lookup tells apart by length or by the first letter (folded when
   * case is ignored).
   */
  predicate Distinguished(declared: string, requested: string, ignoreCase: bool)
  {
    || |declared| != |requested|
    || (&& |declared| > 0 && |requested| > 0
        && if ignoreCase then FoldChar(declared[0]) != FoldChar(requested[0]) else declared[0] != requested[0])
  }

  lemma NoMatch(declared: string, requested: string, ignoreCase: bool)
    requires Distinguished(declared, requested, ignoreCase)
    ensures !NameMatches(declared, requested, ignoreCase)
  {
    if ignoreCase {
      assert |FoldCase(declared)| == |declared| && |FoldCase(requested)| == |requested|;
      if |declared| == |requested| {
        assert FoldCase(declared)[0] != FoldCase(requested)[0];
      }
    }
  }

  /** Ignoring case, a name matches itself with its first letter folded. */
  lemma CapitalIgnored(declared: string, requested: string)
    requires |declared| == |requested| > 0
    requires FoldChar(declared[0]) == requested[0] && declared[1..] == requested[1..]
    ensures NameMatches(declared, requested, true)
  {
    assert forall i :: 1 <= i < |declared| ==> declared[i] == declared[1..][i - 1];
    assert forall i :: 0 <= i < |declared| ==> FoldChar(requested[i]) == FoldChar(declared[i]);
  }

  /** `DataObject`'s properties are the five declared ones, each once. */
  lemma DataObjectProperties(p: Property)
    requires p in Info(Types, DataObject).properties
    ensures p == Forename || p == Surname || p == Dob || p == LikesCats || p == NullString
    ensures multiset(Info(Types, DataObject).properties)[p] == 1 && p.hasPublicGetter
  {
    var props := Info(Types, DataObject).properties;
    assert props == [Forename, Surname, Dob, LikesCats, NullString];
    assert |Forename.name| == 8 && |Surname.name| == 7 && |Dob.name| == 3 && |LikesCats.name| == 9 && |NullString.name| == 10;
    assert multiset(props) == multiset{Forename, Surname, Dob, LikesCats, NullString};
  }

  /** Every property of `DataObject` other than `p` is told apart from `name`. */
  predicate OthersApart(p: Property, name: string, ignoreCase: bool)
  {
    && (p == Forename || Distinguished(Forename.name, name, ignoreCase))
    && (p == Surname || Distinguished(Surname.name, name, ignoreCase))
    && (p == Dob || Distinguished(Dob.name, name, ignoreCase))
    && (p == LikesCats || Distinguished(LikesCats.name, name, ignoreCase))
    && (p == NullString || Distinguished(NullString.name, name, ignoreCase))
  }

  lemma OthersDiffer(p: Property, name: string, ignoreCase: bool)
    requires OthersApart(p, name, ignoreCase)
    ensures forall q :: q in Info(Types, DataObject).properties && q != p ==> !NameMatches(q.name, name, ignoreCase)
  {
    forall q | q in Info(Types, DataObject).properties && q != p
      ensures !NameMatches(q.name, name, ignoreCase)
    {
      DataObjectProperties(q);
      NoMatch(q.name, name, ignoreCase);
    }
  }

  /** A lookup with ignored case finds the one property of `DataObject` it cannot tell from the name. */
  lemma Finds(p: Property, name: string)
    requires p in Info(Types, DataObject).properties && NameMatches(p.name, name, true)
    requires OthersApart(p, name, true)
    ensures FindGetter(Types, DataObject, name, true) == Getter(p)
  {
    OthersDiffer(p, name, true);
    DataObjectProperties(p);
    FindUnique(Types, DataObject, name, true, p);
  }

  /** A name every property of `DataObject` is told apart from is not found. */
  lemma Absent(name: string, ignoreCase: bool)
    requires Distinguished(Forename.name, name, ignoreCase) && OthersApart(Forename, name, ignoreCase)
    ensures FindGetter(Types, DataObject, name, ignoreCase) == Missing
  {
    NoMatch(Forename.name, name, ignoreCase);
    OthersDiffer(Forename, name, ignoreCase);
  }

  /** Binding ignores case: `{forename}` finds `Forename`, which an exact lookup would not. */
  lemma LowerCaseName(name: string)
    requires name == "forename"
    ensures FindGetter(Types, DataObject, name, true) == Getter(Forename)
    ensures FindGetter(Types, DataObject, name, false) == Missing
  {
    LowerCaseFound(name);
    ExactCaseMissing(name);
  }

  lemma LowerCaseFound(name: string)
    requires name == "forename"
    ensures FindGetter(Types, DataObject, name, true) == Getter(Forename)
  {
    assert Info(Types, DataObject).properties == [Forename, Surname, Dob, LikesCats, NullString];
    assert FoldChar('F') == 'f';
    CapitalIgnored(Forename.name, name);
    Finds(Forename, name);
  }

  lemma ExactCaseMissing(name: string)
    requires name == "forename"
    ensures FindGetter(Types, DataObject, name, false) == Missing
  {
    assert Info(Types, DataObject).properties == [Forename, Surname, Dob, LikesCats, NullString];
    Absent(name, false);
  }

  lemma NotFoundMissing(name: string)
    requires name == "NotFound"
    ensures FindGetter(Types, DataObject, name, true) == Missing
  {
    assert Info(Types, DataObject).properties == [Forename, Surname, Dob, LikesCats, NullString];
    assert FoldChar('F') == 'f' && FoldChar('N') == 'n';
    Absent(name, true);
  }

  lemma LikesCatsFound(name: string)
    requires name == "LikesCats"
    ensures FindGetter(Types, DataObject, name, true) == Getter(LikesCats)
  {
    assert Info(Types, DataObject).properties == [Forename, Surname, Dob, LikesCats, NullString];
    Finds(LikesCats, name);
  }

  lemma NullStringFound(name: string)
    requires name == "NullString"
    ensures FindGetter(Types, DataObject, name, true) == Getter(NullString)
  {
    assert Info(Types, DataObject).properties == [Forename, Surname, Dob, LikesCats, NullString];
    Finds(NullString, name);
  }

  /** What the two compilers make of a prepared template of one to four segments. */
  lemma CompilesTo(template: string, provider: FormatProvider, es: seq<Expr>)
    requires Prepare(Default, Types, DataObject, Some(template), Some(provider)) == Ok(es)
    ensures |es| == 1 ==> FastCompiler.Compile(Fast, Types, DataObject, Some(template), Some(provider)) == Ok(Coalesced(es[0]))
    ensures |es| == 1 ==> LegacyCompiler.Compile(Legacy, Types, DataObject, Some(template), Some(provider)) == Ok(Bare(es[0]))
    ensures 2 <= |es| <= 4 ==> FastCompiler.Compile(Fast, Types, DataObject, Some(template), Some(provider)) == Ok(InlineConcat(es))
  {
  }

  /** A template that fails to prepare fails to compile, with the same error, on both compilers. */
  lemma FailsWith(template: string, provider: FormatProvider, err: CompileError)
    requires Prepare(Default, Types, DataObject, Some(template), Some(provider)) == Err(err)
    ensures FastCompiler.Compile(Fast, Types, DataObject, Some(template), Some(provider)) == Err(err)
    ensures LegacyCompiler.Compile(Legacy, Types, DataObject, Some(template), Some(provider)) == Err(err)
  {
  }

  /** A template of one segment that resolves prepares to that segment's expression. */
  lemma PrepareOne(parser: FormatStringParser, reg: Registry, root: TypeId, template: string, provider: FormatProvider,
                   seg: Segment, e: Expr)
    requires ParseWith(parser, template) == ParseOutcome([seg], None)
    requires ToExpression(reg, root, true, provider, seg) == Ok(e)
    ensures Prepare(parser, reg, root, Some(template), Some(provider)) == Ok([e])
  {
    PrepareEach(parser, reg, root, template, provider, [seg], [e]);
  }

  /** A template of two segments that resolve prepares to their expressions. */
  lemma PrepareTwo(parser: FormatStringParser, reg: Registry, root: TypeId, template: string, provider: FormatProvider,
                   s0: Segment, s1: Segment, e0: Expr, e1: Expr)
    requires ParseWith(parser, template) == ParseOutcome([s0, s1], None)
    requires ToExpression(reg, root, true, provider, s0) == Ok(e0)
    requires ToExpression(reg, root, true, provider, s1) == Ok(e1)
    ensures Prepare(parser, reg, root, Some(template), Some(provider)) == Ok([e0, e1])
  {
    PrepareEach(parser, reg, root, template, provider, [s0, s1], [e0, e1]);
  }

  /** The default parser reads `Unparse(segs)` back as `segs`. */
  lemma ParsesAs(template: string, segs: seq<Segment>)
    requires WellFormed(segs) && template == Unparse(segs)
    ensures ParseWith(Default, template) == ParseOutcome(segs, None)
  {
    ParserProperties.UnparseParses(segs);
  }

  lemma ParsesParam(template: string, name: string)
    requires ValidSegment(ParamSegment(name)) && template == "{" + name + "}"
    ensures ParseWith(Default, template) == ParseOutcome([ParamSegment(name)], None)
  {
    var segs := [ParamSegment(name)];
    assert segs[1..] == [] && Unparse(segs) == Render(segs[0]) + "";
    ParsesAs(template, segs);
  }

  lemma ParsesFormatted(template: string, name: string, format: string)
    requires ValidSegment(FormattedParamSegment(name, format)) && template == "{" + name + ":" + format + "}"
    ensures ParseWith(Default, template) == ParseOutcome([FormattedParamSegment(name, format)], None)
  {
    var segs := [FormattedParamSegment(name, format)];
    assert segs[1..] == [] && Unparse(segs) == Render(segs[0]) + "";
    ParsesAs(template, segs);
  }

  lemma ParsesTextParam(template: string, text: string, name: string)
    requires ValidSegment(TextSegment(text)) && ValidSegment(ParamSegment(name)) && template == text + "{" + name + "}"
    ensures ParseWith(Default, template) == ParseOutcome([TextSegment(text), ParamSegment(name)], None)
  {
    var segs := [TextSegment(text), ParamSegment(name)];
    assert segs[1..] == [ParamSegment(name)] && segs[1..][1..] == [];
    assert Unparse(segs[1..]) == Render(ParamSegment(name)) + Unparse(segs[1..][1..]);
    assert Unparse(segs) == text + Unparse(segs[1..]);
    assert text + (Render(ParamSegment(name)) + "") == template;
    ParsesAs(template, segs);
  }

  const ForenameGetter := GetterCall(Parameter(DataObject), Forename)

  lemma ForenameResolves(name: string, provider: FormatProvider)
    requires name == "forename"
    ensures ToExpression(Types, DataObject, true, provider, ParamSegment(name)) == Ok(ForenameGetter)
  {
    LowerCaseFound(name);
  }

  lemma ForenamePrepares(template: string, provider: FormatProvider)
    requires template == "{forename}"
    ensures Prepare(Default, Types, DataObject, Some(template), Some(provider)) == Ok([ForenameGetter])
  {
    var name := "forename";
    ParsesParam(template, name);
    ForenameResolves(name, provider);
    PrepareOne(Default, Types, DataObject, template, provider, ParamSegment(name), ForenameGetter);
  }

  /** The older compiler on `{forename}`: the getter itself, which returns the forename. */
  lemma LegacyForename(template: string, provider: FormatProvider, host: Host, x: Value)
    requires template == "{forename}"
    requires x != Null && host.getter(x, Forename) == Str("Steve")
    ensures var r := LegacyCompiler.Compile(Legacy, Types, DataObject, Some(template), Some(provider));
      r == Ok(Bare(ForenameGetter)) && Run(Types, host, x, r.value) == Returned(Str("Steve"))
  {
    ForenamePrepares(template, provider);
    CompilesTo(template, provider, [ForenameGetter]);
    GetterValue(host, x, Forename);
  }

  /** The getter of a `DataObject` property, on a non-null input. */
  lemma GetterValue(host: Host, x: Value, p: Property)
    requires x != Null
    ensures Eval(Types, host, x, GetterCall(Parameter(DataObject), p)) == Returned(host.getter(x, p))
  {
  }

  lemma NotFoundAlone(name: string, provider: FormatProvider)
    requires name == "NotFound"
    ensures ToExpression(Types, DataObject, true, provider, ParamSegment(name)) == Err(PropertyNotFound(name, None))
  {
    NotFoundMissing(name);
  }

  lemma NotFoundFormatted(name: string, format: string, provider: FormatProvider)
    requires name == "NotFound"
    ensures ToExpression(Types, DataObject, true, provider, FormattedParamSegment(name, format)) == Err(PropertyNotFound(name, None))
  {
    NotFoundMissing(name);
  }

  /** An unknown name is not found. */
  lemma NotFoundRow(template: string, provider: FormatProvider)
    requires template == "{NotFound}"
    ensures FastCompiler.Compile(Fast, Types, DataObject, Some(template), Some(provider)) == Err(PropertyNotFound("NotFound", None))
  {
    var name := "NotFound";
    var segs := [ParamSegment(name)];
    ParsesParam(template, name);
    NotFoundAlone(name, provider);
    PrepareFails(Default, Types, DataObject, template, provider, segs, 0);
    FailsWith(template, provider, PropertyNotFound("NotFound", None));
  }

  /** An unknown name is not found even when a format is given: the lookup comes first. */
  lemma NotFoundWithFormatRow(template: string, provider: FormatProvider)
    requires template == "{NotFound:something}"
    ensures FastCompiler.Compile(Fast, Types, DataObject, Some(template), Some(provider)) == Err(PropertyNotFound("NotFound", None))
  {
    var name, format := "NotFound", "something";
    var segs := [FormattedParamSegment(name, format)];
    ParsesFormatted(template, name, format);
    NotFoundFormatted(name, format, provider);
    PrepareFails(Default, Types, DataObject, template, provider, segs, 0);
    FailsWith(template, provider, PropertyNotFound("NotFound", None));
  }

  lemma LikesCatsFormatted(name: string, format: string, provider: FormatProvider)
    requires name == "LikesCats"
    ensures ToExpression(Types, DataObject, true, provider, FormattedParamSegment(name, format)) == Err(NotFormattable(name))
  {
    LikesCatsFound(name);
    BooleanNotFormattable();
    Refused(Types, DataObject, provider, name, format, LikesCats);
  }

  /** A found property whose type is not `IFormattable` refuses a format. */
  lemma Refused(reg: Registry, root: TypeId, provider: FormatProvider, name: string, format: string, p: Property)
    requires FindGetter(reg, root, name, true) == Getter(p) && !IsFormattable(reg, p.propertyType)
    ensures ToExpression(reg, root, true, provider, FormattedParamSegment(name, format)) == Err(NotFormattable(name))
  {
  }

  /** `bool` is not `IFormattable`. */
  lemma BooleanNotFormattable()
    ensures !IsFormattable(Types, Boolean)
  {
    assert Info(Types, Boolean).interfaces == [];
  }

  /** A format on a `bool` property is refused. */
  lemma NotFormattableRow(template: string, provider: FormatProvider)
    requires template == "{LikesCats:something}"
    ensures FastCompiler.Compile(Fast, Types, DataObject, Some(template), Some(provider)) == Err(NotFormattable("LikesCats"))
  {
    var name, format := "LikesCats", "something";
    var segs := [FormattedParamSegment(name, format)];
    ParsesFormatted(template, name, format);
    LikesCatsFormatted(name, format, provider);
    PrepareFails(Default, Types, DataObject, template, provider, segs, 0);
    FailsWith(template, provider, NotFormattable("LikesCats"));
  }

  const NullGetter := GetterCall(Parameter(DataObject), NullString)

  lemma NullStringResolves(name: string, provider: FormatProvider)
    requires name == "NullString"
    ensures ToExpression(Types, DataObject, true, provider, ParamSegment(name)) == Ok(NullGetter)
  {
    NullStringFound(name);
  }

  lemma NullStringPrepares(template: string, provider: FormatProvider)
    requires template == "{NullString}"
    ensures Prepare(Default, Types, DataObject, Some(template), Some(provider)) == Ok([NullGetter])
  {
    var name := "NullString";
    ParsesParam(template, name);
    NullStringResolves(name, provider);
    PrepareOne(Default, Types, DataObject, template, provider, ParamSegment(name), NullGetter);
  }

  /** A null string property alone: "" from the newer compiler, null from the older one. */
  lemma NullStringAlone(template: string, provider: FormatProvider, host: Host, x: Value)
    requires template == "{NullString}"
    requires x != Null && host.getter(x, NullString) == Null
    ensures var r := FastCompiler.Compile(Fast, Types, DataObject, Some(template), Some(provider));
      r == Ok(Coalesced(NullGetter)) && Run(Types, host, x, r.value) == Returned(Str(""))
    ensures var r := LegacyCompiler.Compile(Legacy, Types, DataObject, Some(template), Some(provider));
      r == Ok(Bare(NullGetter)) && Run(Types, host, x, r.value) == Returned(Null)
  {
    NullStringPrepares(template, provider);
    CompilesTo(template, provider, [NullGetter]);
    GetterValue(host, x, NullString);
  }

  const AfterText := [Constant("This is null: "), NullGetter]

  lemma AfterTextPrepares(template: string, text: string, name: string, provider: FormatProvider)
    requires text == "This is null: " && name == "NullString" && template == text + "{" + name + "}"
    ensures Prepare(Default, Types, DataObject, Some(template), Some(provider)) == Ok(AfterText)
  {
    ParsesTextParam(template, text, name);
    NullStringResolves(name, provider);
    PrepareTwo(Default, Types, DataObject, template, provider, TextSegment(text), ParamSegment(name), Constant(text), NullGetter);
  }

  /** A null string property after text: read as empty by `String.Concat`. */
  lemma NullStringAfterText(template: string, provider: FormatProvider, host: Host, x: Value)
    requires template == "This is null: {NullString}"
    requires x != Null && host.getter(x, NullString) == Null
    ensures var r := FastCompiler.Compile(Fast, Types, DataObject, Some(template), Some(provider));
      r == Ok(InlineConcat(AfterText)) && Run(Types, host, x, r.value) == Returned(Str("This is null: "))
  {
    assert template == "This is null: " + "{" + "NullString" + "}";
    AfterTextPrepares(template, "This is null: ", "NullString", provider);
    CompilesTo(template, provider, AfterText);
    NullAfterText(host, x);
  }

  /** `String.Concat` of two segment strings. */
  lemma ConcatTwo(reg: Registry, host: Host, x: Value, a: Expr, b: Expr)
    ensures Run(reg, host, x, InlineConcat([a, b])) ==
      if Eval(reg, host, x, a).Faulted? || Eval(reg, host, x, b).Faulted? then Faulted
      else Returned(Str(Piece(Eval(reg, host, x, a).value) + Piece(Eval(reg, host, x, b).value)))
  {
    ConcatTiersInOrder(reg, host, x, [a, b]);
    assert [a, b][..1] == [a] && [a][..0] == [];
    var va := Eval(reg, host, x, a);
    assert InOrder(reg, host, x, []) == Returned(Str(""));
    if va.Returned? {
      assert "" + Piece(va.value) == Piece(va.value);
      assert InOrder(reg, host, x, [a]) == Returned(Str(Piece(va.value)));
    } else {
      assert InOrder(reg, host, x, [a]) == Faulted;
    }
  }

  lemma NullAfterText(host: Host, x: Value)
    requires x != Null && host.getter(x, NullString) == Null
    ensures Run(Types, host, x, InlineConcat(AfterText)) == Returned(Str("This is null: "))
  {
    GetterValue(host, x, NullString);
    ConcatTwo(Types, host, x, Constant("This is null: "), NullGetter);
    assert "This is null: " + "" == "This is null: ";
  }

  /** A stub parser that pushes the given segments for "format-string" and nothing for any other template. */
  function Stub(pushed: seq<Segment>): FormatStringParser
  {
    Custom(s => if s == "format-string" then ParseOutcome(pushed, None) else ParseOutcome([], None))
  }

  /** The compiler on a stub parser pushing text segments: the tier for their number, and their text. */
  lemma StubFormats(pushed: seq<Segment>, reg: Registry, root: TypeId, culture: FormatProvider, host: Host, x: Value)
    requires |pushed| >= 1 && forall i :: 0 <= i < |pushed| ==> pushed[i].TextSegment?
    ensures var r := FastCompiler.CompileWithCurrentCulture(FastCompiler.FastStringFormatCompiler(Stub(pushed)), reg, root, Some("format-string"), culture);
      && r.Ok?
      && (|pushed| == 1 ==> r.value.Coalesced?)
      && (2 <= |pushed| <= 4 ==> r.value.InlineConcat?)
      && (|pushed| > 4 ==> r.value.ArrayConcat?)
      && Run(reg, host, x, r.value) == Returned(Str(Unparse(pushed)))
  {
    var c := FastCompiler.FastStringFormatCompiler(Stub(pushed));
    assert ParseWith(c.parser, "format-string") == ParseOutcome(pushed, None);
    FastCompiler.TextOnly(c, reg, root, "format-string", culture, host, x);
    FastCompiler.Tiers(c, reg, root, "format-string", culture);
  }

  lemma FormatSingleton(reg: Registry, root: TypeId, culture: FormatProvider, host: Host, x: Value)
    ensures var r := FastCompiler.CompileWithCurrentCulture(FastCompiler.FastStringFormatCompiler(Stub([TextSegment("result")])),
                                                           reg, root, Some("format-string"), culture);
      r.Ok? && r.value.Coalesced? && Run(reg, host, x, r.value) == Returned(Str("result"))
  {
    var pushed := [TextSegment("result")];
    assert Unparse(pushed) == "result";
    StubFormats(pushed, reg, root, culture, host, x);
  }

  lemma FormatSmallSet(reg: Registry, root: TypeId, culture: FormatProvider, host: Host, x: Value)
    ensures var r := FastCompiler.CompileWithCurrentCulture(
                       FastCompiler.FastStringFormatCompiler(Stub([TextSegment("result"), TextSegment("2"), TextSegment("3"), TextSegment("4")])),
                       reg, root, Some("format-string"), culture);
      r.Ok? && r.value.InlineConcat? && Run(reg, host, x, r.value) == Returned(Str("result234"))
  {
    var pushed := [TextSegment("result"), TextSegment("2"), TextSegment("3"), TextSegment("4")];
    assert Unparse(pushed) == "result234";
    StubFormats(pushed, reg, root, culture, host, x);
  }

  lemma FormatLargeSet(reg: Registry, root: TypeId, culture: FormatProvider, host: Host, x: Value)
    ensures var r := FastCompiler.CompileWithCurrentCulture(
                       FastCompiler.FastStringFormatCompiler(Stub([TextSegment("result"), TextSegment("2"), TextSegment("3"), TextSegment("4"),
                                                                   TextSegment("5"), TextSegment("6"), TextSegment("7")])),
                       reg, root, Some("format-string"), culture);
      r.Ok? && r.value.ArrayConcat? && Run(reg, host, x, r.value) == Returned(Str("result234567"))
  {
    var front := [TextSegment("result"), TextSegment("2"), TextSegment("3"), TextSegment("4")];
    var back := [TextSegment("5"), TextSegment("6"), TextSegment("7")];
    assert Unparse(front) == "result234";
    assert Unparse(back) == "567";
    UnparseAppend(front, back);
    assert "result234" + "567" == "result234567";
    var pushed := front + back;
    assert pushed == [TextSegment("result"), TextSegment("2"), TextSegment("3"), TextSegment("4"),
                      TextSegment("5"), TextSegment("6"), TextSegment("7")];
    StubFormats(pushed, reg, root, culture, host, x);
  }
}
