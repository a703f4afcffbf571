/** `executeCode` (src/utils/codeExecutor.js:27-156): maps a language, a
    source text and standard input onto a request for the Piston execution
    service and folds its reply into one result record.

    The network call is a parameter: `service` gives the outcome of posting
    a payload (a rejected `fetch`, or a response with a status and a parsed
    body), and `elapsed` is the time the clock measured around it. With
    those, the dispatcher is a total function, and the `try`/`catch` of the
    source shows up as the replies on which the source would throw. */
module CodeExecutor {
  import opened Wrappers
  import opened Text
  import opened Languages
  import opened JavaNormalization

  /** One file of the request. */
  datatype SourceFile = SourceFile(name: string, content: string)

  /** The JSON body posted to the service (:54-63). */
  datatype Payload = Payload(
    language: string,
    version: string,
    files: seq<SourceFile>,
    stdin: string,
    compileTimeout: int,
    runTimeout: int,
    compileMemoryLimit: int,
    runMemoryLimit: int)

  const CompileTimeout: int := 10000
  const RunTimeout: int := 5000
  /** A memory limit of -1 leaves enforcement to the service. */
  const NoMemoryLimit: int := -1

  /** The `code` of a phase: a number, or `null` when the service killed the
      process (on a timeout, for instance). */
  datatype ExitCode = Code(n: int) | Null

  /** One phase of the reply. A missing or `null` stream reads as "". */
  datatype Phase = Phase(code: ExitCode, stdout: string, stderr: string, output: string)

  /** The parsed body of a successful response. `Malformed` stands for a body
      on which reading a property throws: `res.json()` rejects, or yields
      `null`. Otherwise `compile` and `run` may each be absent. */
  datatype Body = Malformed | Body(compile: Option<Phase>, run: Option<Phase>)

  /** What the `fetch` call gives: it rejects, or yields a response. */
  datatype Transport = Threw | Response(status: int, statusText: string, body: Body)

  /** The record returned to the caller. */
  datatype ExecutionResult = ExecutionResult(
    success: bool,
    output: string,
    error: string,
    time: string,
    memory: string)

  const NetworkError: string := "Network error: Failed to connect to execution service"
  const CompilationPrefix: string := "Compilation Error:\n"
  const UnknownCompilationError: string := "Unknown compilation error"
  const NoOutput: string := "Program executed successfully (no output)"
  const MissingInputSignature: string := "NoSuchElementException"
  const MismatchSignature: string := "InputMismatchException"
  const MissingInputHeader: string := "\U{274C} Input Missing Error:\n"
  const FormatHeader: string := "\U{274C} Input Format Error: \n"

  /** The invariants every result keeps: `success` exactly when there is no
      error, exactly one of `output` and `error` is filled in, and memory is
      one of the two placeholders. */
  predicate WellFormed(r: ExecutionResult)
  {
    && (r.success <==> r.error == "")
    && ((r.output != "") != (r.error != ""))
    && (r.memory == "0KB" || r.memory == "N/A")
  }

  /** `${ms}ms` */
  function Elapsed(ms: int): (r: string)
    ensures EndsWith(r, "ms")
    ensures r[0] == '-' <==> ms < 0
    ensures r[..|r| - 2] == IntToDecimal(ms)
  {
    var r := IntToDecimal(ms) + "ms";
    assert r[..|r| - 2] == IntToDecimal(ms);
    r
  }

  /** Different measurements give different time texts. */
  lemma ElapsedInjective(a: int, b: int)
    requires Elapsed(a) == Elapsed(b)
    ensures a == b
  {
    IntToDecimalInjective(a, b);
  }

  /** `${code}` for an exit code. */
  function ExitCodeText(code: ExitCode): (r: string)
    ensures r != ""
    ensures r == "null" <==> code.Null?
    ensures code.Code? ==> r == IntToDecimal(code.n)
  {
    match code
    case Code(n) => IntToDecimal(n)
    case Null => "null"
  }

  /** Different exit codes are reported differently. */
  lemma ExitCodeTextInjective(a: ExitCode, b: ExitCode)
    requires ExitCodeText(a) == ExitCodeText(b)
    ensures a == b
  {
    if a.Code? && b.Code? {
      IntToDecimalInjective(a.n, b.n);
    }
  }

  /** The failure record produced by the `catch` clause (:146-155). */
  function NetworkFailure(): (r: ExecutionResult)
    ensures WellFormed(r) && !r.success
  {
    ExecutionResult(false, "", NetworkError, "0ms", "0KB")
  }

  /** The source for the request: Java declarations renamed, others as given (:41, :44-46). */
  function SubmittedCode(language: string, code: string): (r: string)
    ensures language != "java" ==> r == code
    ensures !Contains(code, "class") ==> r == code
  {
    RenameWithoutKeyword(code);
    if language == "java" then RenamePublicClass(code) else code
  }

  /** The standard input for the request: Java's newline-terminated, others as given (:42, :48-51). */
  function SubmittedInput(language: string, input: string): (r: string)
    ensures r == "" <==> input == ""
    ensures StartsWith(r, input) && |r| <= |input| + 1
    ensures language == "java" && input != "" ==> EndsWith(r, "\n")
    ensures language != "java" ==> r == input
    ensures EndsWith(input, "\n") ==> r == input
  {
    if language == "java" then TerminateInput(input) else input
  }

  /** The payload for a language whose descriptor is `meta` (:54-63). */
  function BuildPayload(language: string, meta: Descriptor, code: string, input: string): (r: Payload)
    ensures r.language == meta.piston
    ensures r.version != "" && (meta.version != "" ==> r.version == meta.version)
    ensures |r.files| == 1 && r.files[0].name == "main." + meta.ext
    ensures !Contains(code, "class") ==> r.files[0].content == code
    ensures r.stdin == "" <==> input == ""
    ensures r.compileTimeout == 10000 && r.runTimeout == 5000
    ensures r.compileMemoryLimit == -1 && r.runMemoryLimit == -1
  {
    Payload(
      meta.piston,
      Or(meta.version, "*"),
      [SourceFile("main." + meta.ext, SubmittedCode(language, code))],
      SubmittedInput(language, input),
      CompileTimeout,
      RunTimeout,
      NoMemoryLimit,
      NoMemoryLimit)
  }

  /** The payload a call posts, or None when the language is not in the table
      and nothing is posted (:28-38). */
  function Request(language: string, code: string, input: string): (r: Option<Payload>)
    ensures r.Some? <==> IsLanguageSupported(language)
  {
    match Lookup(language)
    case None => None
    case Some(meta) => Some(BuildPayload(language, meta, code, input))
  }

  /** `run.stderr || run.output || "Process exited with code ${run.code}"` (:116). */
  function RuntimeMessage(run: Phase): (m: string)
    ensures m != ""
    ensures run.stderr != "" ==> m == run.stderr
    ensures run.stderr == "" && run.output != "" ==> m == run.output
    ensures run.stderr == "" && run.output == "" ==> m == "Process exited with code " + ExitCodeText(run.code)
  {
    Or(run.stderr, Or(run.output, "Process exited with code " + ExitCodeText(run.code)))
  }

  /** The text put before the original error when input is missing (:119-127). */
  const MissingInputGuidance: string := MissingInputHeader
    + "Your code is trying to read input, but no input was provided.\n\n"
    + "\U{1F527} Quick fixes:\n"
    + "1. Add input in the \"Input\" section below the code editor\n"
    + "2. For two integers, try: \"5 10\" or \"5\\n10\"\n"
    + "3. Make sure you provide enough input values for all Scanner.nextInt() calls\n\n"
    + "Original error:\n"

  /** The text put after the original error when its format is wrong (:131-136). */
  const FormatAdvice: string := "\n\n\U{1F4A1} Common fixes:\n"
    + "- For integers: Use space or newline separation (e.g., \"5 10\" or \"5\\n10\")\n"
    + "- For arrays: Put size on first line, elements on second line\n"
    + "- Check if your input matches what Scanner expects"

  /** The guidance for a read from empty input (:119-128), which quotes the
      original error at its end. */
  function MissingInputMessage(original: string): (r: string)
    ensures StartsWith(r, MissingInputHeader) && Contains(r, original) && |r| > |original|
  {
    var r := MissingInputGuidance + original;
    assert Contains(r, original) by {
      ContainsInfix(MissingInputGuidance, original, "");
      assert MissingInputGuidance + original + "" == r;
    }
    assert StartsWith(r, MissingInputHeader) by {
      assert MissingInputGuidance[..|MissingInputHeader|] == MissingInputHeader;
      assert r[..|MissingInputHeader|] == MissingInputGuidance[..|MissingInputHeader|];
    }
    r
  }

  /** The guidance for input of the wrong shape (:130-136), which quotes the
      original error right after its heading. */
  function FormatMessage(original: string): (r: string)
    ensures StartsWith(r, FormatHeader) && Contains(r, original) && |r| > |original|
  {
    var r := FormatHeader + original + FormatAdvice;
    assert Contains(r, original) by {
      ContainsInfix(FormatHeader, original, FormatAdvice);
    }
    assert r[..|FormatHeader|] == FormatHeader;
    r
  }

  /** The diagnostic enrichment of a runtime error (:118-137): a missing-input
      exception takes precedence over an input-mismatch one; either way the
      original text is kept, and any other message passes through. */
  function Enrich(message: string): (r: string)
    ensures Contains(r, message) && |message| <= |r|
    ensures r == message <==> !Contains(message, MissingInputSignature) && !Contains(message, MismatchSignature)
    ensures Contains(message, MissingInputSignature) ==> StartsWith(r, MissingInputHeader)
    ensures (!Contains(message, MissingInputSignature) && Contains(message, MismatchSignature))
              ==> StartsWith(r, FormatHeader)
  {
    if Contains(message, MissingInputSignature) then MissingInputMessage(message)
    else if Contains(message, MismatchSignature) then FormatMessage(message)
    else
      assert Contains(message, message) by {
        ContainsInfix("", message, "");
        assert "" + message + "" == message;
      }
      message
  }

  /** The reply passes every check before the run phase: an ok status, a
      readable body, and no failed compile phase. */
  predicate ReachesRun(reply: Transport)
  {
    && reply.Response? && 200 <= reply.status <= 299
    && reply.body.Body?
    && (reply.body.compile.None? || reply.body.compile.value.code == Code(0))
  }

  /** Interpretation of the reply (:79-155), in the source's priority order:
      transport error, compile error, run success, run failure, and the
      replies on which the source throws into its `catch`. */
  function Interpret(reply: Transport, elapsed: int): (r: ExecutionResult)
    ensures WellFormed(r)
    ensures r.time == "0ms" || r.time == Elapsed(elapsed)
    ensures r.success ==> r.memory == "N/A"
  {
    match reply
    case Threw => NetworkFailure()
    case Response(status, statusText, body) =>
      if !(200 <= status <= 299) then
        ExecutionResult(false, "", "Remote service error " + IntToDecimal(status) + ": " + statusText,
                        Elapsed(elapsed), "0KB")
      else
        match body
        case Malformed => NetworkFailure()
        case Body(compile, run) =>
          if compile.Some? && compile.value.code != Code(0) then
            var diagnostic := Or(compile.value.stderr, Or(compile.value.output, UnknownCompilationError));
            ExecutionResult(false, "", CompilationPrefix + diagnostic, Elapsed(elapsed), "0KB")
          else
            match run
            case None => NetworkFailure()
            case Some(phase) =>
              if phase.code == Code(0) then
                ExecutionResult(true, Or(phase.stdout, Or(phase.output, NoOutput)), "", Elapsed(elapsed), "N/A")
              else
                ExecutionResult(false, "", Enrich(RuntimeMessage(phase)), Elapsed(elapsed), "N/A")
  }

  /** `executeCode(language, code, input)`, with the outcome of the `fetch`
      given by `service` and the measured time by `elapsed`. */
  function ExecuteCode(language: string, code: string, input: string,
                       service: Payload -> Transport, elapsed: int): (r: ExecutionResult)
    ensures WellFormed(r)
    ensures r.time == "0ms" || r.time == Elapsed(elapsed)
    ensures r.success ==> IsLanguageSupported(language) && r.memory == "N/A"
  {
    match Request(language, code, input)
    case None => ExecutionResult(false, "", "Unsupported language: " + language, "0ms", "0KB")
    case Some(payload) => Interpret(service(payload), elapsed)
  }

  /** An unsupported language fails at once with a fixed record; neither
      the service nor the clock has any say, so no request is made. */
  lemma UnsupportedLanguage(language: string, code: string, input: string,
                            service1: Payload -> Transport, elapsed1: int,
                            service2: Payload -> Transport, elapsed2: int)
    requires !IsLanguageSupported(language)
    ensures ExecuteCode(language, code, input, service1, elapsed1)
         == ExecuteCode(language, code, input, service2, elapsed2)
         == ExecutionResult(false, "", "Unsupported language: " + language, "0ms", "0KB")
  {
  }

  /** A supported language posts one payload, built from its descriptor, and
      the result is the interpretation of the reply to that payload. */
  lemma SupportedLanguagePayload(language: string, code: string, input: string,
                                 service: Payload -> Transport, elapsed: int)
    requires IsLanguageSupported(language)
    ensures Request(language, code, input).Some?
    ensures var p := Request(language, code, input).value;
            var meta := Lookup(language).value;
            && ExecuteCode(language, code, input, service, elapsed) == Interpret(service(p), elapsed)
            && p.language == meta.piston
            && p.version == meta.version
            && p.files == [SourceFile("main." + meta.ext, SubmittedCode(language, code))]
            && p.stdin == SubmittedInput(language, input)
            && p.compileTimeout == 10000 && p.runTimeout == 5000
            && p.compileMemoryLimit == -1 && p.runMemoryLimit == -1
  {
    EveryVersionPinned(language);
  }

  /** Only Java is rewritten: every other language's code and input go out as given. */
  lemma OtherLanguagesUnchanged(language: string, code: string, input: string)
    requires IsLanguageSupported(language) && language != "java"
    ensures Request(language, code, input).value.files[0].content == code
    ensures Request(language, code, input).value.stdin == input
  {
  }

  /** Java input that is not empty always reaches the service newline-terminated,
      at most one character longer; empty input stays empty. */
  lemma JavaInputTerminated(code: string, input: string)
    ensures Request("java", code, input).Some?
    ensures var stdin := Request("java", code, input).value.stdin;
            && (input == "" <==> stdin == "")
            && (input != "" ==> EndsWith(stdin, "\n"))
            && StartsWith(stdin, input) && |stdin| <= |input| + 1
            && (EndsWith(input, "\n") ==> stdin == input)
  {
    JavaDescriptor();
  }

  /** Source without a `public class` declaration is submitted unchanged, in
      every language. */
  lemma CodeWithoutDeclarationUnchanged(language: string, code: string, input: string)
    requires IsLanguageSupported(language) && NoOccurrence(code)
    ensures Request(language, code, input).value.files[0].content == code
  {
    RenameWithoutOccurrence(code);
  }

  /** A Java request carries one file, `main.java`, holding the renamed source. */
  lemma JavaFiles(code: string, input: string)
    ensures Request("java", code, input).Some?
    ensures Request("java", code, input).value.files == [SourceFile("main.java", RenamePublicClass(code))]
  {
    var meta := Descriptor("java", "java", "15.0.2");
    assert Request("java", code, input) == Some(BuildPayload("java", meta, code, input)) by {
      JavaDescriptor();
    }
    JavaFileName();
  }

  /** The file name a Java request uses, spelled out. */
  lemma JavaFileName()
    ensures "main." + "java" == "main.java"
  {
    var name := "main." + "java";
    assert |name| == 9;
    forall i | 0 <= i < 9 ensures name[i] == "main.java"[i] {
      if i < 5 {
        assert name[i] == "main."[i];
      } else {
        assert name[i] == "java"[i - 5];
      }
    }
  }

  /** A Java class declaration is renamed to `Main` whatever the class is
      called, and the rest of a source without another `class` keyword is
      sent as written. */
  lemma JavaDeclarationRenamed(name: string, rest: string, input: string)
    requires name != [] && AllWord(name)
    requires (rest == [] || !IsWord(rest[0])) && !Contains(rest, "class")
    ensures Request("java", "public class " + name + rest, input).Some?
    ensures Request("java", "public class " + name + rest, input).value.files
         == [SourceFile("main.java", "public class Main" + rest)]
  {
    JavaFiles("public class " + name + rest, input);
    RenameSingleDeclaration(name, rest);
  }

  /** A non-ok HTTP status decides the result before the body is read. */
  lemma TransportErrorFirst(status: int, statusText: string, body1: Body, body2: Body, elapsed: int)
    requires !(200 <= status <= 299)
    ensures Interpret(Response(status, statusText, body1), elapsed)
         == Interpret(Response(status, statusText, body2), elapsed)
         == ExecutionResult(false, "", "Remote service error " + IntToDecimal(status) + ": " + statusText,
                            Elapsed(elapsed), "0KB")
  {
  }

  /** A failed compile phase decides the result before the run phase is looked at. */
  lemma CompileErrorBeforeRun(status: int, statusText: string, compile: Phase,
                              run1: Option<Phase>, run2: Option<Phase>, elapsed: int)
    requires 200 <= status <= 299 && compile.code != Code(0)
    ensures var r := Interpret(Response(status, statusText, Body(Some(compile), run1)), elapsed);
            && r == Interpret(Response(status, statusText, Body(Some(compile), run2)), elapsed)
            && !r.success && r.output == "" && r.memory == "0KB" && r.time == Elapsed(elapsed)
            && StartsWith(r.error, CompilationPrefix)
            && r.error[|CompilationPrefix|..] == Or(compile.stderr, Or(compile.output, UnknownCompilationError))
  {
    var r := Interpret(Response(status, statusText, Body(Some(compile), run1)), elapsed);
    var d := Or(compile.stderr, Or(compile.output, UnknownCompilationError));
    assert r.error == CompilationPrefix + d;
    assert r.error[..|CompilationPrefix|] == CompilationPrefix;
    assert r.error[|CompilationPrefix|..] == d;
  }

  /** The call succeeds exactly when the reply reaches the run phase and the
      run exits with code 0; the output is then the first non-empty of
      stdout, the combined output and the fixed no-output text. */
  lemma SuccessExactlyOnCleanRun(reply: Transport, elapsed: int)
    ensures Interpret(reply, elapsed).success
            <==> ReachesRun(reply) && reply.body.run.Some? && reply.body.run.value.code == Code(0)
    ensures Interpret(reply, elapsed).success ==>
              var run := reply.body.run.value;
              && Interpret(reply, elapsed).output == Or(run.stdout, Or(run.output, NoOutput))
              && Interpret(reply, elapsed).time == Elapsed(elapsed)
  {
  }

  /** A run that exits with anything but 0 fails with its message, enriched
      when it shows a Scanner input exception, and the original message is
      always kept in the error. */
  lemma RuntimeFailure(reply: Transport, elapsed: int)
    requires ReachesRun(reply) && reply.body.run.Some? && reply.body.run.value.code != Code(0)
    ensures var r := Interpret(reply, elapsed);
            var message := RuntimeMessage(reply.body.run.value);
            && !r.success && r.output == "" && r.memory == "N/A" && r.time == Elapsed(elapsed)
            && r.error == Enrich(message)
            && Contains(r.error, message)
            && (Contains(message, MissingInputSignature) ==> StartsWith(r.error, MissingInputHeader))
  {
  }

  /** The replies on which the source throws — a rejected `fetch`, an
      unreadable body, a missing run phase — all give the network failure
      record: the call never throws. */
  lemma ThrowsAreCaught(reply: Transport, elapsed: int)
    requires || reply.Threw?
             || (reply.Response? && 200 <= reply.status <= 299 && reply.body.Malformed?)
             || (ReachesRun(reply) && reply.body.run.None?)
    ensures Interpret(reply, elapsed) == ExecutionResult(false, "", NetworkError, "0ms", "0KB")
  {
  }

  /** Two calls with the same inputs against the same service give the same
      record, except for the measured time. */
  lemma SameCallSameResult(language: string, code: string, input: string,
                           service: Payload -> Transport, elapsed1: int, elapsed2: int)
    ensures ExecuteCode(language, code, input, service, elapsed1).(time := "")
         == ExecuteCode(language, code, input, service, elapsed2).(time := "")
  {
    match Request(language, code, input)
    case None =>
    case Some(p) => SameReplySameResult(service(p), elapsed1, elapsed2);
  }

  /** The interpretation of a reply depends on the clock only through the time field. */
  lemma SameReplySameResult(reply: Transport, elapsed1: int, elapsed2: int)
    ensures Interpret(reply, elapsed1).(time := "") == Interpret(reply, elapsed2).(time := "")
  {
    match reply
    case Threw =>
    case Response(status, statusText, body) =>
      if 200 <= status <= 299 && body.Body? && (body.compile.None? || body.compile.value.code == Code(0))
         && body.run.Some? {
        var phase := body.run.value;
        if phase.code == Code(0) {
          assert Interpret(reply, elapsed1).(time := "")
              == ExecutionResult(true, Or(phase.stdout, Or(phase.output, NoOutput)), "", "", "N/A");
        } else {
          assert Interpret(reply, elapsed1).(time := "")
              == ExecutionResult(false, "", Enrich(RuntimeMessage(phase)), "", "N/A");
        }
      }
  }
}
