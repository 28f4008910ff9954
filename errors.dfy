/** The exceptions `Compile` can end in, as values. */
module Errors {
  import opened Wrappers
  import opened Segments
  import opened Registry

  datatype CompileError =
    /** `ArgumentNullException` naming the parameter that was null. */
    | ArgumentNull(paramName: string)
    /** `FormatStringSyntaxException` raised by the parser. */
    | Syntax(error: SyntaxError)
    /**
     * `FormatStringSyntaxException`: no property of that name with a public
     * get accessor; `onType` is the type named in the message, when it names one.
     */
    | PropertyNotFound(property: string, onType: Option<TypeId>)
    /** `FormatStringSyntaxException`: a format was given for a property that is not `IFormattable`. */
    | NotFormattable(property: string)
    /** `AmbiguousMatchException` from `GetProperty`: several properties match the name. */
    | AmbiguousMatch(property: string)
}
