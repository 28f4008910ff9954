/**
 * `Compiler`, the older entry point: the same guards, parsing, binding and
 * tiers as `FastStringFormatCompiler`, except that a single segment is used
 * as it is, without replacing null by "".
 */
module LegacyCompiler {
  import opened Wrappers
  import opened Segments
  import opened DefaultFormatParser
  import opened Registry
  import opened Errors
  import opened Runtime
  import opened Formatting
  import FastCompiler

  datatype Compiler = Compiler(parser: FormatStringParser)

  /** The parameterless constructor: the default parser. */
  function NewCompiler(): Compiler
  {
    Compiler(Default)
  }

  /**
   * The older compiler's parameterless constructor also prepares from the scan
   * of `DefaultFormatParser`: that scan's syntax error, or else the resolution
   * of the segments it pushed.
   */
  lemma DefaultParserScans(reg: Registry, root: TypeId, s: string, provider: FormatProvider)
    ensures ParseWith(NewCompiler().parser, s) == Parse(s)
    ensures Prepare(NewCompiler().parser, reg, root, Some(s), Some(provider)) ==
            if Parse(s).error.Some? then Err(Syntax(Parse(s).error.value))
            else ResolveAll(reg, root, true, provider, Parse(s).segments)
  {
  }

  /** `Compile<T>(formatString, formatProvider)` of the older compiler. */
  function Compile(c: Compiler, reg: Registry, root: TypeId,
                   formatString: Option<string>, formatProvider: Option<FormatProvider>): Result<Formatter, CompileError>
  {
    var prepared := Prepare(c.parser, reg, root, formatString, formatProvider);
    if prepared.Err? then Err(prepared.error)
    else
      var es := prepared.value;
      if |es| == 1 then Ok(Bare(es[0]))
      else if |es| <= 4 then CompileToSingleConcat(es)
      else Ok(CompileToArrayConcat(es))
  }

  /** `Compile<T>(formatString)`: the current culture as the format provider. */
  function CompileWithCurrentCulture(c: Compiler, reg: Registry, root: TypeId,
                                     formatString: Option<string>, currentCulture: FormatProvider): Result<Formatter, CompileError>
  {
    Compile(c, reg, root, formatString, Some(currentCulture))
  }

  /**
   * The two compilers, given the same parser, fail on the same templates with
   * the same error; their formatters agree on every input once the older
   * one's null is read as "", and agree outright on templates of other than one segment.
   */
  lemma AgreesWithFast(parser: FormatStringParser, reg: Registry, root: TypeId,
                       formatString: Option<string>, formatProvider: Option<FormatProvider>, host: Host, x: Value)
    ensures var legacy := Compile(Compiler(parser), reg, root, formatString, formatProvider);
      var fast := FastCompiler.Compile(FastCompiler.FastStringFormatCompiler(parser), reg, root, formatString, formatProvider);
      && (legacy.Err? <==> fast.Err?)
      && (legacy.Err? ==> legacy.error == fast.error)
      && (legacy.Ok? ==> Run(reg, host, x, fast.value) == CoalesceEmpty(Run(reg, host, x, legacy.value)))
      && (legacy.Ok? && !legacy.value.Bare? ==> legacy == fast)
  {
  }

  /** The older single-segment formatter returns null exactly where its segment does; the newer one never does. */
  lemma SingletonNull(parser: FormatStringParser, reg: Registry, root: TypeId, formatString: string,
                      provider: FormatProvider, host: Host, x: Value)
    requires Compile(Compiler(parser), reg, root, Some(formatString), Some(provider)).Ok?
    requires |Prepare(parser, reg, root, Some(formatString), Some(provider)).value| == 1
    ensures var e := Prepare(parser, reg, root, Some(formatString), Some(provider)).value[0];
      Run(reg, host, x, Compile(Compiler(parser), reg, root, Some(formatString), Some(provider)).value) == Eval(reg, host, x, e)
    ensures Run(reg, host, x, FastCompiler.Compile(FastCompiler.FastStringFormatCompiler(parser), reg, root, Some(formatString), Some(provider)).value)
            != Returned(Null)
  {
  }
}
