/** The interface of the TypeScript compiler as the validators use it:
    `ts.transpileModule` (a request and its output) and
    `ts.createSourceFile`. The compiler itself is not modelled; the
    validators receive it as a function from request to output. */
module Compiler {
  import opened Maybe

  /** A diagnostic's `messageText`: a string, or a chain object whose own
      `messageText` is nested one level deeper. */
  datatype MsgText = Str(text: string) | Chain(inner: MsgText)

  datatype Diag = Diag(code: int, msg: MsgText)

  datatype ModuleKind = CommonJS
  datatype ScriptTarget = ESNext
  /** `"react-jsx"` (tsValidator) and `ts.JsxEmit.ReactJSX` (generated-code validator). */
  datatype JsxEmit = ReactJsx

  datatype CompilerOptions = CompilerOptions(
    moduleKind: ModuleKind,
    target: ScriptTarget,
    esModuleInterop: bool,
    jsx: Option<JsxEmit>)

  /** The options both validators start from before `jsx` is decided. */
  const BaseOptions := CompilerOptions(CommonJS, ESNext, true, None)

  /** The options both validators compile with: the base options, plus the
      React JSX emit exactly when JSX is allowed. */
  function OptionsFor(isJsx: bool): (o: CompilerOptions)
    ensures o.jsx == Some(ReactJsx) <==> isJsx
    ensures o.jsx == None <==> !isJsx
    ensures o.(jsx := None) == BaseOptions
  {
    if isJsx then BaseOptions.(jsx := Some(ReactJsx)) else BaseOptions
  }

  /** One call of `ts.transpileModule(fileText, { compilerOptions, reportDiagnostics })`. */
  datatype TranspileRequest = TranspileRequest(
    fileText: string,
    options: CompilerOptions,
    reportDiagnostics: bool)

  /** `diagnostics` (an absent array is the empty sequence) and `outputText`. */
  datatype TranspileOutput = TranspileOutput(diagnostics: seq<Diag>, outputText: string)

  datatype ScriptKind = TS | TSX

  /** The syntax tree `ts.createSourceFile` returns, identified by its inputs. */
  datatype SourceFile = SourceFile(fileName: string, text: string, kind: ScriptKind)
}
