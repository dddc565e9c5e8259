/** `validateTypeScript` (src/validators/tsValidator.js): compile a snippet,
    optionally after some context declarations, and report success or the
    blocking diagnostics. */
module TsValidator {
  import opened Maybe
  import opened Text
  import opened Compiler
  import opened Diagnostics

  /** `{ isJsx = false, context = '', includeAst = false }` */
  datatype TsOptions = TsOptions(isJsx: bool, context: string, includeAst: bool)

  const DefaultOptions := TsOptions(false, "", false)

  datatype TsResult = TsResult(
    success: bool,
    message: string,
    outputText: Option<string>,
    ast: Option<SourceFile>)

  const ValidMessage := "Code is valid TypeScript."
  const FailurePrefix := "TypeScript compilation failed:\n"

  /** The one request sent to `ts.transpileModule`: the context, a newline,
      then the code, with diagnostics requested. */
  function CheckRequest(code: string, opts: TsOptions): (q: TranspileRequest)
    ensures |q.fileText| == |opts.context| + 1 + |code|
    ensures q.fileText[..|opts.context|] == opts.context
    ensures q.fileText[|opts.context|] == '\n'
    ensures q.fileText[|opts.context| + 1..] == code
    ensures q.options == OptionsFor(opts.isJsx) && q.reportDiagnostics
  {
    TranspileRequest(opts.context + "\n" + code, OptionsFor(opts.isJsx), true)
  }

  function AstKind(isJsx: bool): ScriptKind {
    if isJsx then TSX else TS
  }

  /** The syntax tree, when it was asked for and `createSourceFile` did not
      throw (`parses` says whether it returns). */
  function CheckAst(code: string, opts: TsOptions, parses: (string, ScriptKind) -> bool): Option<SourceFile> {
    var text := CheckRequest(code, opts).fileText;
    if opts.includeAst && parses(text, AstKind(opts.isJsx)) then
      Some(SourceFile("tempFile.ts", text, AstKind(opts.isJsx)))
    else None
  }

  /** The result of `validateTypeScript`, given the compiler's behaviour. */
  function TypeScriptCheck(
    code: string, opts: TsOptions,
    transpile: TranspileRequest -> TranspileOutput,
    parses: (string, ScriptKind) -> bool): (r: TsResult)
  {
    var out := transpile(CheckRequest(code, opts));
    var critical := Critical(out.diagnostics);
    if |critical| > 0 then
      TsResult(false, FailurePrefix + Join(FlattenAll(critical), "\n"), None, None)
    else
      TsResult(true, ValidMessage, Some(out.outputText), CheckAst(code, opts, parses))
  }

  /** The check fails exactly when some diagnostic is not allow-listed; on
      failure the message lists the flattened blocking messages in
      diagnostic order, one per line. */
  lemma FailsIffBlockingDiagnostic(
    code: string, opts: TsOptions,
    transpile: TranspileRequest -> TranspileOutput,
    parses: (string, ScriptKind) -> bool)
    ensures var ds := transpile(CheckRequest(code, opts)).diagnostics;
            var r := TypeScriptCheck(code, opts, transpile, parses);
            && (!r.success <==> exists i :: 0 <= i < |ds| && !IsSuppressed(ds[i]))
            && (!r.success ==> r.message == FailurePrefix + Join(FlattenAll(Critical(ds)), "\n")
                               && r.outputText == None && r.ast == None)
  {
    var ds := transpile(CheckRequest(code, opts)).diagnostics;
    if |Critical(ds)| > 0 {
      var d := Critical(ds)[0];
      assert d in Critical(ds);
      var i :| 0 <= i < |ds| && ds[i] == d;
    } else {
      forall i | 0 <= i < |ds|
        ensures IsSuppressed(ds[i])
      {
        assert ds[i] in ds;
      }
    }
  }

  /** When every diagnostic is allow-listed (or there are none) the code is
      valid and the transpiled output is returned. */
  lemma SuppressedOnlySucceeds(
    code: string, opts: TsOptions,
    transpile: TranspileRequest -> TranspileOutput,
    parses: (string, ScriptKind) -> bool)
    requires forall d :: d in transpile(CheckRequest(code, opts)).diagnostics ==> IsSuppressed(d)
    ensures var r := TypeScriptCheck(code, opts, transpile, parses);
            r.success && r.message == ValidMessage
            && r.outputText == Some(transpile(CheckRequest(code, opts)).outputText)
  {
    var ds := transpile(CheckRequest(code, opts)).diagnostics;
    if |Critical(ds)| > 0 {
      assert Critical(ds)[0] in Critical(ds);
    }
  }

  /** The syntax tree is returned exactly when it was asked for, the code is
      valid, and building it did not throw; it is the tree of the full text. */
  lemma AstOnlyWhenRequested(
    code: string, opts: TsOptions,
    transpile: TranspileRequest -> TranspileOutput,
    parses: (string, ScriptKind) -> bool)
    ensures var r := TypeScriptCheck(code, opts, transpile, parses);
            var text := opts.context + "\n" + code;
            && (r.ast.Some? <==> r.success && opts.includeAst && parses(text, AstKind(opts.isJsx)))
            && (r.ast.Some? ==> r.ast.value.text == text && (r.ast.value.kind == TSX <==> opts.isJsx))
  {
  }

  /** The verdict depends on the compiler only through its answer to the
      one request `context + "\n" + code`. */
  lemma DependsOnlyOnFullText(
    code: string, opts: TsOptions,
    t1: TranspileRequest -> TranspileOutput, t2: TranspileRequest -> TranspileOutput,
    parses: (string, ScriptKind) -> bool)
    requires t1(TranspileRequest(opts.context + "\n" + code, OptionsFor(opts.isJsx), true))
          == t2(TranspileRequest(opts.context + "\n" + code, OptionsFor(opts.isJsx), true))
    ensures TypeScriptCheck(code, opts, t1, parses) == TypeScriptCheck(code, opts, t2, parses)
  {
  }

  /** The `while` loop of src/validators/tsValidator.js:63-66. */
  method FlattenMessage(m: MsgText) returns (text: string)
    ensures text == FlattenFully(m)
    ensures Leaf(m) != "" ==> text == Leaf(m)
  {
    var message := m;
    while message.Chain? && Truthy(message.inner)
      invariant Innermost(message) == Innermost(m)
      decreases Depth(message)
    {
      message := message.inner;
    }
    text := Render(message);
    if Leaf(m) != "" {
      FlattenFindsLeaf(m);
    }
  }

  /** `validateTypeScript`, step by step as the source writes it. */
  method ValidateTypeScript(
    code: string, opts: TsOptions,
    transpile: TranspileRequest -> TranspileOutput,
    parses: (string, ScriptKind) -> bool) returns (r: TsResult)
    ensures r == TypeScriptCheck(code, opts, transpile, parses)
  {
    var fullCode := opts.context + "\n" + code;
    var ast: Option<SourceFile> := None;
    if opts.includeAst {
      var kind := if opts.isJsx then TSX else TS;
      if parses(fullCode, kind) {
        ast := Some(SourceFile("tempFile.ts", fullCode, kind));
      }
    }
    var compilerOptions := BaseOptions;
    if opts.isJsx {
      compilerOptions := compilerOptions.(jsx := Some(ReactJsx));
    }
    var result := transpile(TranspileRequest(fullCode, compilerOptions, true));
    if |result.diagnostics| > 0 {
      var critical := Critical(result.diagnostics);
      if |critical| > 0 {
        var errors: seq<string> := [];
        for i := 0 to |critical|
          invariant errors == FlattenAll(critical[..i])
        {
          var text := FlattenMessage(critical[i].msg);
          errors := errors + [text];
        }
        assert critical[..|critical|] == critical;
        return TsResult(false, FailurePrefix + Join(errors, "\n"), None, None);
      }
    }
    r := TsResult(true, ValidMessage, Some(result.outputText), None);
    if opts.includeAst && ast.Some? {
      r := r.(ast := ast);
    }
  }
}
