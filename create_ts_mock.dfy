/** The `validate` of the mock-object task (src/tests/2_0_createTsMock.js):
    the code must compile after the two interfaces it is written against,
    then pass five structural checks in a fixed order. */
module CreateTsMock {
  import opened Maybe
  import opened Text
  import opened Compiler
  import opened TsValidator
  import opened ContentChecks

  /** The `Profile` and `User` interfaces the code is compiled after. */
  const InterfaceDefinitions :=
    "\ninterface Profile {\n  avatarUrl?: string;\n  bio?: string;\n}\n\n"
    + "interface User {\n  id: string;\n  email: string;\n  registrationDate: Date;\n"
    + "  profile: Profile;\n}\n"

  const MockOptions := TsOptions(false, InterfaceDefinitions, false)

  const DeclarationRule := Rule(Includes("const mockUser: User ="),
                                "Code does not declare \"const mockUser: User\".")
  const IdRule := Rule(Quoted("id: "), "Mock is missing a string \"id\" property.")
  const EmailRule := Rule(QuotedWithAt("email: "),
                          "Mock is missing a valid-looking \"email\" property.")
  const DateRule := Rule(Includes("registrationDate: new Date("),
                         "Mock is missing \"registrationDate: new Date()\".")
  const ProfileRule := Rule(NestedQuoted("profile: {", "avatarUrl: "),
                            "Mock is missing a nested \"profile\" object with an avatarUrl.")

  /** The checks, in the order the source runs them. */
  const MockRules := [DeclarationRule, IdRule, EmailRule, DateRule, ProfileRule]

  const MockValid := "Mock object is structurally valid and compiles correctly."

  /** `validate(code)`, given the compiler's behaviour. */
  function Validate(code: string, transpile: TranspileRequest -> TranspileOutput,
                    parses: (string, ScriptKind) -> bool): TsResult
  {
    var ts := TypeScriptCheck(code, MockOptions, transpile, parses);
    if !ts.success then ts
    else match FirstFailure(MockRules, code)
      case Some(m) => TsResult(false, m, None, None)
      case None => TsResult(true, MockValid, None, None)
  }

  /** The code is compiled after the interfaces, without JSX and without a
      syntax tree, and a failed compile is returned as it is, before any
      structural check. */
  lemma CompileFirst(code: string, transpile: TranspileRequest -> TranspileOutput,
                     parses: (string, ScriptKind) -> bool)
    ensures CheckRequest(code, MockOptions).fileText == InterfaceDefinitions + "\n" + code
    ensures CheckRequest(code, MockOptions).options.jsx == None
    ensures !TypeScriptCheck(code, MockOptions, transpile, parses).success
            ==> Validate(code, transpile, parses) == TypeScriptCheck(code, MockOptions, transpile, parses)
  {
  }

  /** Once the code compiles, the first failing check of the five
      (declaration, id, email, registration date, profile) names the result. */
  lemma FirstFailingCheckReported(code: string, transpile: TranspileRequest -> TranspileOutput,
                                  parses: (string, ScriptKind) -> bool, k: nat)
    requires TypeScriptCheck(code, MockOptions, transpile, parses).success
    requires k < |MockRules| && !Holds(MockRules[k].check, code)
    requires forall l :: 0 <= l < k ==> Holds(MockRules[l].check, code)
    ensures Validate(code, transpile, parses) == TsResult(false, MockRules[k].failure, None, None)
  {
    FirstFailureIs(MockRules, code, k);
  }

  /** Code that compiles but lacks `const mockUser: User =` is reported for
      that, whatever else it lacks. */
  lemma MissingDeclaration(code: string, transpile: TranspileRequest -> TranspileOutput,
                           parses: (string, ScriptKind) -> bool)
    requires TypeScriptCheck(code, MockOptions, transpile, parses).success
    requires !Contains(code, "const mockUser: User =")
    ensures Validate(code, transpile, parses)
         == TsResult(false, "Code does not declare \"const mockUser: User\".", None, None)
  {
    FirstFailureIs(MockRules, code, 0);
  }

  /** The result is a success exactly when the code compiles and all five
      checks pass, and then it says so. */
  lemma SuccessIff(code: string, transpile: TranspileRequest -> TranspileOutput,
                   parses: (string, ScriptKind) -> bool)
    ensures var r := Validate(code, transpile, parses);
            && (r.success <==> TypeScriptCheck(code, MockOptions, transpile, parses).success
                               && forall k :: 0 <= k < |MockRules| ==> Holds(MockRules[k].check, code))
            && (r.success ==> r.message == MockValid)
  {
  }
}
