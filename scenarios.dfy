/** Concrete calls of the dispatcher against fixed replies of the service. */
module Scenarios {
  import opened Wrappers
  import opened Text
  import opened Languages
  import opened JavaNormalization
  import opened CodeExecutor

  /** For a supported language, the result is the interpretation of the
      reply the service gives to every payload. */
  lemma AnsweredCall(language: string, code: string, input: string, reply: Transport, elapsed: int)
    requires IsLanguageSupported(language)
    ensures ExecuteCode(language, code, input, (p: Payload) => reply, elapsed) == Interpret(reply, elapsed)
  {
    SupportedLanguagePayload(language, code, input, (p: Payload) => reply, elapsed);
  }

  /** A Python program printing a greeting succeeds with the printed text. */
  lemma HelloWorld(elapsed: int)
    ensures ExecuteCode("python", "print(\"Hello, World!\")", "",
                        (p: Payload) => Response(200, "OK", Body(None, Some(Phase(Code(0), "Hello, World!\n", "", "Hello, World!\n")))),
                        elapsed)
         == ExecutionResult(true, "Hello, World!\n", "", Elapsed(elapsed), "N/A")
  {
    SupportedLanguagesListed();
    AnsweredCall("python", "print(\"Hello, World!\")", "",
                 Response(200, "OK", Body(None, Some(Phase(Code(0), "Hello, World!\n", "", "Hello, World!\n")))), elapsed);
  }

  /** A failed compile phase reports its stderr after the fixed heading. */
  lemma CompileError(language: string, code: string, input: string, elapsed: int)
    requires IsLanguageSupported(language)
    ensures ExecuteCode(language, code, input,
                        (p: Payload) => Response(200, "OK", Body(Some(Phase(Code(1), "", "syntax error", "syntax error")), None)),
                        elapsed).error
         == CompilationPrefix + "syntax error"
  {
    var compile := Phase(Code(1), "", "syntax error", "syntax error");
    var reply := Response(200, "OK", Body(Some(compile), None));
    AnsweredCall(language, code, input, reply, elapsed);
    CompileErrorBeforeRun(200, "OK", compile, None, None, elapsed);
    var e := Interpret(reply, elapsed).error;
    assert e == e[..|CompilationPrefix|] + e[|CompilationPrefix|..];
  }

  /** A Java program reading from empty input gets the missing-input guidance,
      with the original exception quoted. */
  lemma MissingInput(code: string, elapsed: int)
    ensures var stderr := "Exception in thread \"main\" java.util." + MissingInputSignature;
            var r := ExecuteCode("java", code, "",
                                 (p: Payload) => Response(200, "OK", Body(None, Some(Phase(Code(1), "", stderr, stderr)))),
                                 elapsed);
            && !r.success
            && StartsWith(r.error, MissingInputHeader)
            && Contains(r.error, stderr)
  {
    JavaDescriptor();
    var stderr := "Exception in thread \"main\" java.util." + MissingInputSignature;
    var reply := Response(200, "OK", Body(None, Some(Phase(Code(1), "", stderr, stderr))));
    AnsweredCall("java", code, "", reply, elapsed);
    assert Contains(stderr, MissingInputSignature) by {
      ContainsInfix("Exception in thread \"main\" java.util.", MissingInputSignature, "");
      assert stderr + "" == stderr;
    }
    RuntimeFailure(reply, elapsed);
  }

  /** A rejected request gives the network failure record. */
  lemma ConnectionRefused(language: string, code: string, input: string, elapsed: int)
    requires IsLanguageSupported(language)
    ensures ExecuteCode(language, code, input, (p: Payload) => Threw, elapsed)
         == ExecutionResult(false, "", NetworkError, "0ms", "0KB")
  {
    AnsweredCall(language, code, input, Threw, elapsed);
  }

  /** A Ruby program that prints nothing succeeds with the no-output text. */
  lemma SilentProgram(elapsed: int)
    ensures ExecuteCode("ruby", "", "",
                        (p: Payload) => Response(200, "OK", Body(None, Some(Phase(Code(0), "", "", "")))),
                        elapsed).output
         == "Program executed successfully (no output)"
  {
    SupportedLanguagesListed();
    AnsweredCall("ruby", "", "", Response(200, "OK", Body(None, Some(Phase(Code(0), "", "", "")))), elapsed);
  }
}
