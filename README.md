# fast-string-format, modelled in Dafny

fast-string-format compiles a named-placeholder template, such as
`"{Forename} {Surname} was born {Dob:yyyy-MM-dd}"`, into a reusable formatter
`Func<T, string>` for values of a type `T`. Compiling happens in three steps:

1. A pluggable parser (`IFormatStringParser`; by default the left-to-right
   `DefaultFormatParser`) pushes text, parameter and formatted-parameter
   segments into a `ParsedStringBuilder`. It throws a syntax error at the
   first malformed brace.
2. Each segment becomes an expression by reflection on `T`, with
   case-insensitive binding: a literal, a property getter followed by
   `ToString()`, or a getter followed by `IFormattable.ToString(format, provider)`.
3. The expressions are joined by their count:
   - one segment is coalesced with `""`;
   - two to four go to an inline `String.Concat`;
   - more go to the array overload of `String.Concat`.

The older `Compiler` does the same, except that it uses a single segment
without the coalesce. `ParameterProvider` resolves dotted property paths
link by link and wraps an expression in the null check that the
`NullCheckMode` asks for.

The model, file by file:

- `segments.dfy`: the segment kinds and the syntax errors. It also gives
  the template text that a segment list spells (`Unparse`) and what the
  parser can emit (`WellFormed`).
- `builder.dfy`: `ParsedStringBuilder`, a class whose one `seq` field the
  three `Add*` methods extend.
- `parser.dfy`: `DefaultFormatParser.ParseFormatString`, the imperative
  scan over the template. Its loop is proved against the recursive
  specification `Parse`.
- `parser_properties.dfy`: what any parse guarantees (soundness, the shape
  of each error) and that every well-formed segment list parses back
  from its own text.
- `strings.dfy`: the `String` operations the core uses:
  - `IndexOf` from an offset;
  - `Split` on a separator;
  - ordinal case folding.
- `registry.dfy`: what reflection tells about a type, as an abstract
  registry:
  - properties, each with a declared type and a public-getter flag;
  - whether the type is a value type or a `Nullable<U>`;
  - its interfaces;
  - whether `GetMethod` finds a public `ToString()`, and a public
    `ToString(string, IFormatProvider)`, on it. Reflection finds no
    parameterless `ToString` on an interface type. `IFormattable` itself is
    fixed: it declares the two-argument `ToString` and nothing else. A type
    that implements `IFormattable` only explicitly, or an interface that
    inherits it, has no public two-argument `ToString` of its own.

  `GetProperty(name, flags)?.GetGetMethod()` becomes `FindGetter`.
- `runtime.dfy`: the expression shapes the core builds, and an interpreter
  standing in for the compiled expression tree. The host's getters and
  `ToString` implementations are parameters.
- `errors.dfy`: the exceptions `Compile` can end in, as values.
- `resolution.dfy`: `ToExpression` of the three segment classes, as written.
- `parameter_provider.dfy`:
  - `ParameterProvider.GetParameter`, as a loop proved against the path
    walk `Walk`;
  - `WrapWithNullCheck` and `IsNullable`;
  - `NullCheckMode`.
- `formatting.dfy`: what both compilers share:
  - the parser seam;
  - `ParseFormatString` on a fresh builder;
  - the guards, parse-then-resolve and the concatenation tiers;
  - what a formatter computes, and the reference definition `InOrder`
    it is proved against.
- `fast_compiler.dfy`, `compiler.dfy`: `FastStringFormatCompiler` and
  `Compiler`. The latter is proved to agree with the former, apart from
  null on a single segment.
- `composed_resolution.dfy`: the wiring the segment unit tests describe,
  kept apart from the segments as written. A segment asks the
  `ParameterProvider` for its dotted path and wraps the result with the
  null check. It is related to the as-written segments by lemmas.
- `parser_examples.dfy`, `compiler_examples.dfy`: the template rows of the
  integration tests and the stub-parser unit tests, stated as lemmas.

Where the specification and the code disagree, the model follows the code:

- The segment classes look the whole parameter name up on `T` with one
  `GetProperty` call. They never call the `ParameterProvider`, and
  `Compile` creates none.
- A not-found error from a segment therefore names no type.
- A dotted name is looked up as one property name. It is not found unless
  `T` declares a property spelled with the dot.
- Single-segment null handling comes only from the fast compiler's
  `Coalesce`.
- A property whose type has no public `ToString` of the shape looked up is
  not reported as a missing string conversion. `GetMethod` returns null, and
  `Expression.Call` throws `ArgumentNullException` for its `method` argument.

The provider-based wiring is modelled on its own in `ComposedResolution`.

## Model

| member | source | states |
|---|---|---|
| Builder.ParsedStringBuilder.constructor | src/Parsing/ParsedStringBuilder.cs:14-16 | a new builder holds no segment |
| Builder.ParsedStringBuilder.AddTextSegment | src/Parsing/ParsedStringBuilder.cs:18-21 | appends exactly one text segment to the end; earlier segments are unchanged |
| Builder.ParsedStringBuilder.AddParamSegment | src/Parsing/ParsedStringBuilder.cs:23-26 | appends exactly one parameter segment to the end |
| Builder.ParsedStringBuilder.AddFormattedParamSegment | src/Parsing/ParsedStringBuilder.cs:28-31 | appends exactly one formatted-parameter segment, with its parameter and format |
| DefaultFormatParser.ParseFormatString | src/Parsing/Parsers/DefaultFormatParser.cs:5-64 | the scan loop leaves the builder holding its old segments followed by the segments of `Parse(formatString)`, and reports the same syntax error; the loop invariant is `Pending(builder.segments, s, ptr) == Parse(s)` |
| ParserProperties.FailShape | src/Parsing/Parsers/DefaultFormatParser.cs:26-62 | what the template looks like at a rejected brace: no `}` after an unmatched one; `}`, or `:` and later `}`, right after an empty parameter; a `}` right after the first `:` for an empty format |
| ParserProperties.ParseSound | src/Parsing/Parsers/DefaultFormatParser.cs:5-64 | the segments are always well formed (no empty or adjacent text, names without `}` or `:`, formats without `}`); without an error they spell the template; with one, they spell exactly the text before the offending `{`, and the error matches the template's shape there |
| ParserProperties.UnparseParses | src/Parsing/Parsers/DefaultFormatParser.cs:5-64 | round trip: every well-formed segment list is what the parser makes of its own template text, with no error |
| Segments.UnparseAppend | src/Parsing/ParsedStringBuilder.cs:18-31 | the text of a concatenation of segment lists is the concatenation of their texts |
| Strings.IndexOf | src/Parsing/Parsers/DefaultFormatParser.cs:11 | the result is -1 or an index at or after the offset holding the character |
| Strings.IndexOfIsFirst | src/Parsing/Parsers/DefaultFormatParser.cs:11 | no index from the offset up to the result holds the character; when the result is -1, no index from the offset to the end does |
| Strings.FoldCase | src/FastStringFormatCompiler.cs:17 | same length, with each character folded: A-Z become a-z and every other character is kept |
| Strings.Split | src/Parsing/ParameterProvider.cs:39 | at least one piece, no piece contains the separator, and the pieces joined with the separator give back the input |
| Strings.SplitWithoutSeparator | src/Parsing/ParameterProvider.cs:39 | a name without the separator splits into itself alone |
| Registry.Matching | src/Parsing/ParamSegment.cs:18 | exactly the properties whose names match under the binding flags |
| Registry.FindGetter | src/Parsing/ParamSegment.cs:18-19 | a found getter is the one property whose name matches, and its get accessor is public; the lookup is ambiguous exactly when several names match, and not found exactly when none matches or the one match has no public get accessor |
| Registry.FindUnique | src/Parsing/ParamSegment.cs:18-19 | a name that matches exactly one declared property with a public get accessor finds that property's getter |
| Registry.MatchingCount | src/Parsing/ParamSegment.cs:18 | when only `p` matches, the number of matches is the number of times `p` is declared |
| Runtime.EvalFits | src/FastStringFormatCompiler.cs:60-65 | type soundness of the interpreter: a value an expression returns fits the expression's static type, so a string-typed expression returns a string or null |
| Resolution.TextResolves | src/Parsing/TextSegment.cs:15-18 | a text segment always resolves, to its literal, whatever the type, binding, provider and input |
| Resolution.ParamResolves | src/Parsing/ParamSegment.cs:16-32 | resolves if and only if the whole name finds a getter whose type is `string` or has a public parameterless `ToString`; not found and ambiguous each give their own error, and a missing `ToString` gives `ArgumentNullException("method")` from `Expression.Call`; the value is the getter's result, or its `ToString()` when it is not a string; the format provider plays no part |
| Resolution.FormattedResolves | src/Parsing/FormattedParamSegment.cs:19-32 | resolves if and only if a getter is found, its type is or implements `IFormattable`, and a public `ToString(string, IFormatProvider)` is found on it; the lookup error comes first, then the formattability error, then `ArgumentNullException("method")` for the missing method; the value is the property formatted with the stored format and the compile-time provider, and a null property throws |
| Resolution.FormattableInterfaceProperty | src/Parsing/FormattedParamSegment.cs:24-31 | a property declared as `IFormattable` resolves with a format, and without one fails with `ArgumentNullException("method")`, as `GetMethod("ToString", new Type[0])` on the interface returns null (src/Parsing/ParamSegment.cs:29-30) |
| Resolution.ResolvedIsString | src/FastStringFormatCompiler.cs:55 | every resolved segment is a string-typed expression over the formatter's own parameter |
| Resolution.ResolvedValue | src/FastStringFormatCompiler.cs:55 | on a well-typed host, a resolved segment returns a string or null and never another object |
| Parameters.GetParameter | src/Parsing/ParameterProvider.cs:37-53 | the loop over the split name computes the path walk from the provider's parameter: one getter call per link, each looked up on the declared type reached so far, stopping at the first link not found |
| Parameters.WalkAppend | src/Parsing/ParameterProvider.cs:43-50 | walking a path in two pieces is walking the first piece and then the second from where the first ended, and an error in the first piece stops the walk |
| Parameters.MissingLink | src/Parsing/ParameterProvider.cs:45-46 | an unknown link ends the walk with an error naming that link and the declared type it was looked up on |
| Parameters.NotFoundLink | src/Parsing/ParameterProvider.cs:45-46 | conversely, a not-found error names a link of the path, and its type is the type reached by the links before it, which has no such property |
| Parameters.SingleLink | src/Parsing/ParameterProvider.cs:39-52 | a name without dots is one getter call on the parameter, returning the getter's value on a non-null input |
| Parameters.SplitJoin | src/Parsing/ParameterProvider.cs:39 | names without dots, joined with '.', split back into the same names |
| Parameters.WalkRooted | src/Parsing/ParameterProvider.cs:41-50 | a walked path mentions only the formatter's own parameter |
| Parameters.NullLinkFaults | src/Parsing/ParameterProvider.cs:48 | intermediate links are dereferenced without a check: once a link is null, every longer path throws |
| Parameters.WrapPasses | src/Parsing/ParameterProvider.cs:61-82 | under `None`, for a type that cannot be null, or with a non-null value, the wrapped expression computes the processed one |
| Parameters.WrapNull | src/Parsing/ParameterProvider.cs:70-77 | under `UseEmptyString`, a null value of a nullable type gives "" |
| Parameters.SkipIsSound | src/Parsing/ParameterProvider.cs:63-96 | skipping the check for a non-nullable type loses nothing: with a well-typed host, the guarded form would compute the same |
| Formatting.Push | src/Parsing/ParsedStringBuilder.cs:18-31 | a parser's pushes, in order: the builder ends with its old segments followed by the outcome's segments, and the error is passed on |
| Formatting.ParseFormatString | src/FastStringFormatCompiler.cs:75-82 | the segments a fresh builder holds after the chosen parser ran, and that parser's syntax error, are the parser's outcome |
| Formatting.ResolveAllOk | src/FastStringFormatCompiler.cs:55 | on success, one expression per segment, in segment order, each that segment's own resolution |
| Formatting.ResolveAllEach | src/FastStringFormatCompiler.cs:55 | conversely, when every segment resolves, the result lists their expressions in order |
| Formatting.ResolveAllErr | src/FastStringFormatCompiler.cs:55-65 | a failure is the error of the first segment that does not resolve; all segments before it resolve |
| Formatting.ResolveAllFirstErr | src/FastStringFormatCompiler.cs:55-65 | conversely, the first segment that does not resolve decides the error |
| Formatting.ResolveAllStrings | src/FastStringFormatCompiler.cs:55 | every resolved expression is string-typed over the formatter's parameter |
| Formatting.PrepareEach | src/FastStringFormatCompiler.cs:38-55 | a template whose segments all resolve prepares to their expressions |
| Formatting.PrepareFails | src/FastStringFormatCompiler.cs:38-55 | a template whose k-th segment is the first not to resolve fails with that segment's error |
| Formatting.EvalAllSnoc | src/FastStringFormatCompiler.cs:90-103 | the arguments are evaluated left to right, and a throw stops the evaluation |
| Formatting.ConcatSnoc | src/FastStringFormatCompiler.cs:90-103 | `String.Concat` appends each argument, a null one as empty |
| Formatting.JoinedInOrder | src/FastStringFormatCompiler.cs:90-103 | evaluating and concatenating all arguments matches the reference in-order concatenation |
| Formatting.ConcatTiersInOrder | src/FastStringFormatCompiler.cs:90-103 | both `String.Concat` tiers compute the in-order concatenation, for any expressions |
| Formatting.CoalescedInOrder | src/FastStringFormatCompiler.cs:84-88 | the coalescing singleton computes the in-order concatenation of its one string-valued segment |
| Formatting.CoalescedNeverNull | src/FastStringFormatCompiler.cs:84-88 | the coalescing singleton never returns null, and returns whenever its segment does |
| FastCompiler.DefaultParserScans | src/FastStringFormatCompiler.cs:21-25 | a compiler from the parameterless constructor scans with `DefaultFormatParser`, so it fails with that scan's syntax error, or else prepares the resolution of the segments the scan pushed |
| FastCompiler.CompileGuards | src/FastStringFormatCompiler.cs:41-45 | a null template is reported first, then a null provider; with both present, neither guard error can occur |
| FastCompiler.CurrentCultureIsProvider | src/FastStringFormatCompiler.cs:32-35 | the one-argument form is the two-argument form with the current culture, and never reports a missing provider |
| FastCompiler.SyntaxErrorFirst | src/FastStringFormatCompiler.cs:46-55 | the whole template is parsed before any lookup: a syntax error is reported whatever the type |
| FastCompiler.FirstResolutionError | src/FastStringFormatCompiler.cs:55-65 | a template that parses but does not resolve fails with the error of its first unresolvable segment |
| FastCompiler.Tiers | src/FastStringFormatCompiler.cs:59-65 | one segment means the coalescing singleton; two to four mean the inline `String.Concat`; more mean the array `String.Concat`; zero segments find no `Concat` overload and throw `ArgumentNullException("method")` |
| FastCompiler.InOrderIsString | src/FastStringFormatCompiler.cs:60-65 | the reference concatenation is a string or a throw, never null |
| FastCompiler.ComputesInOrder | src/FastStringFormatCompiler.cs:38-103 | whatever tier is picked, the formatter computes the segment strings appended in template order, a null one as empty, and never returns null |
| FastCompiler.PlainText | src/FastStringFormatCompiler.cs:38-73 | with the default parser, a template without `{` gives a formatter that returns the template itself; the empty template does not compile |
| FastCompiler.TextsJoin | src/Parsing/TextSegment.cs:15-18 | text segments resolve whatever the type, and their concatenation is their text in order |
| FastCompiler.TextOnly | src/FastStringFormatCompiler.cs:38-73 | a parser pushing only text segments, at least one, gives a formatter that returns their text for every type and input |
| LegacyCompiler.DefaultParserScans | src/Compiler.cs:18-22 | the older compiler's parameterless constructor also scans with `DefaultFormatParser`: that scan's syntax error, or else the resolution of its segments |
| LegacyCompiler.AgreesWithFast | src/Compiler.cs:35-70 | with the same parser, the older compiler fails exactly when the fast one does, with the same error; its formatter equals the fast one's once its null is read as ""; it is the same formatter when there is not exactly one segment |
| LegacyCompiler.SingletonNull | src/Compiler.cs:56-58 | the older single-segment formatter returns what its segment returns, null included, while the fast compiler's never returns null |
| ParserExamples.NoBrace | tests/FastStringFormatIT.cs:54 | a template without `{` is one text segment, or no segment when it is empty |
| ParserExamples.NoClosingBrace | src/Parsing/Parsers/DefaultFormatParser.cs:61-62 | a template with a `{` but no `}` fails as unmatched at its first `{`, after pushing the text before it |
| ParserExamples.HelloUnmatched | tests/FastStringFormatIT.cs:115 | "Hello, {Name" pushes the text "Hello, " and fails as unmatched at 7 |
| ParserExamples.HelloUnmatchedWithFormat | tests/FastStringFormatIT.cs:116 | "Hello, {Name:something" is also unmatched at 7, because a `:` without a later `}` is no format |
| ParserExamples.EmptyBraces | tests/FastStringFormatIT.cs:117 | "{}" is an empty parameter at 0 |
| ParserExamples.EmptyFormatAfterName | tests/FastStringFormatIT.cs:118 | "{Name:}" is an empty format at 0 |
| ParserExamples.FormatWithoutName | tests/FastStringFormatIT.cs:119 | a template made of `{`, `:something` and `}` is an empty parameter at 0 |
| ParserExamples.NameAndFormatEmpty | src/Parsing/Parsers/DefaultFormatParser.cs:35-39 | `{`, `:`, `}` reports the empty parameter before the empty format |
| ParserExamples.TextAroundParameter | tests/FastStringFormatIT.cs:57 | "No{Surname}space!" parses into the text "No", the parameter "Surname" and the text "space!" |
| CompilerExamples.LowerCaseName | tests/IT.cs:21 | with case ignored, "forename" binds to `Forename`; an exact-case lookup would not find it |
| CompilerExamples.ForenamePrepares | tests/IT.cs:21 | "{forename}" prepares to the `Forename` getter alone |
| CompilerExamples.LegacyForename | tests/IT.cs:21 | the older compiler on "{forename}" returns the forename ("Steve") |
| CompilerExamples.NotFoundRow | tests/FastStringFormatIT.cs:120 | "{NotFound}" fails as property not found |
| CompilerExamples.NotFoundWithFormatRow | tests/FastStringFormatIT.cs:121 | "{NotFound:something}" fails as not found too: the lookup comes before the format check |
| CompilerExamples.NotFormattableRow | tests/FastStringFormatIT.cs:122 | "{LikesCats:something}" fails because `bool` is not `IFormattable` |
| CompilerExamples.FailsWith | tests/FastStringFormatIT.cs:114-134 | a template that fails to prepare fails to compile, with the same error, on both compilers |
| CompilerExamples.CompilesTo | src/FastStringFormatCompiler.cs:59-65 | for the integration tests' data object: one prepared segment gives the coalescing or the bare singleton; two to four give the inline concatenation |
| CompilerExamples.NullStringAlone | tests/FastStringFormatIT.cs:62 | "{NullString}" on a null property gives "" from the fast compiler and null from the older one |
| CompilerExamples.NullStringAfterText | tests/FastStringFormatIT.cs:61 | "This is null: {NullString}" on a null property gives "This is null: " |
| CompilerExamples.StubFormats | tests/FastStringFormatCompilerTest.cs:16-83 | a stub parser pushing text segments yields the tier for their count and a formatter returning their text |
| CompilerExamples.FormatSingleton | tests/FastStringFormatCompilerTest.cs:16-32 | one pushed "result" gives the coalescing singleton, returning "result" |
| CompilerExamples.FormatSmallSet | tests/FastStringFormatCompilerTest.cs:34-56 | four pushed texts give the inline concatenation "result234" |
| CompilerExamples.FormatLargeSet | tests/FastStringFormatCompilerTest.cs:58-83 | seven pushed texts give the array concatenation "result234567" |
| ComposedResolution.ComposedText | tests/Parsing/TextSegmentTests.cs:20-31 | a text segment never consults the parameter provider and resolves to its literal |
| ComposedResolution.ComposedAgrees | tests/Parsing/ParamSegmentTests.cs:13-66 | on a name without dots, the provider-based resolver succeeds exactly when the as-written segment does. Its not-found error names the type searched; a success is the as-written expression inside the provider's null check |
| ComposedResolution.NoneModeIsShown | src/Parsing/ParameterProvider.cs:79-80 | under `None`, a name without dots resolves exactly as the as-written segment does |
| ComposedResolution.NullBecomesEmpty | tests/Parsing/ParameterProviderTests.cs:118-152 | under `UseEmptyString`, a nullable path whose value is null makes the segment "" |
| ComposedResolution.NonNullPasses | tests/Parsing/FormattedParamSegmentTests.cs:13-47 | a non-null path value gives the unguarded `ToString` or formatted `ToString` result |
| ComposedResolution.InnerNullFaults | src/Parsing/ParameterProvider.cs:43-82 | only the last link is checked: a null inner link makes the segment throw even under `UseEmptyString` |
| ComposedResolution.FaultCarries | src/Parsing/ParameterProvider.cs:61-82 | a throwing path makes every expression built on it throw, guarded or not |

## Left out

- Expression trees, `Expression.Lambda(...).Compile()` and delegates are not modelled as such. A formatter is a small datatype, and a closed expression language with an interpreter (`Runtime.Eval`) stands in for the tree.
- Reflection is replaced by an abstract type registry. Property lookup folds ASCII letters only. .NET's culture-invariant case folding of other letters is not modelled.
- `ToString()`, `IFormattable.ToString(format, provider)` and the property getters are parameters (`Host`), left uninterpreted. So the date and number texts of the integration tests (rows 58-60, the `22/09/1962` output) are not computed. Culture and `CultureInfo.CurrentCulture` are a value passed in.
- `Host.toString` and `Host.toStringFormatted` always return a string. A `ToString` override that returns null is not modelled, so neither is the null that the older compiler's bare singleton would then pass through.
- Exceptions thrown while the formatter runs are one outcome, `Faulted`. The exception kind (`NullReferenceException` and so on) and the message are not kept.
- Messages of `FormatStringSyntaxException` are not modelled. Errors carry their kind, the brace offset or the property name, and whether a type is named.
- Zero segments: `Compile` on an empty template, or a parser that pushes nothing, ends in `ArgumentNullException("method")`. No zero-argument `String.Concat` overload exists, so the code throws there. The model records this as written.
- The integration rows for dotted paths and null objects (`tests/FastStringFormatIT.cs` rows 63-66) need the provider-based wiring. The segments and compilers as written do not call `ParameterProvider`. `ComposedResolution` models that wiring on its own; the compilers do not use it.
- `tests/IT.cs` rows other than `{forename}`, the benchmarks and the culture initializer of the tests are not modelled.
- The serialization constructor and the other constructors of `FormatStringSyntaxException` are not modelled.
- `Assert.AreSame` identity checks and the Moq interaction checks of the unit tests are not modelled. Expressions are values, so there is no identity to compare.
- A custom parser is modelled by what it pushes and the syntax error it throws. A custom parser that throws another exception, or calls the builder after an error, is not modelled.
- `GetProperty` on a type whose interfaces or base classes hide or redeclare a property is not modelled. The registry lists a type's public instance properties flat.
- The side effects of calling a getter twice (the `Condition` of `WrapWithNullCheck` evaluates the path twice) are not modelled. Getters are pure functions of the host.
