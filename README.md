# SnipShare code execution dispatcher, modelled in Dafny

SnipShare runs code snippets in eleven languages. It does this by posting
each snippet to the Piston execution service. The dispatcher in
`src/utils/codeExecutor.js` has four parts:

- It holds a capability table that maps each language name to Piston's name
  for it, a file extension and a pinned version.
- It answers two queries over that table: the list of supported languages
  and membership in it.
- `executeCode` looks the language up and rejects unsupported languages
  without making a request. For Java it first rewrites the source and input:
  every `public class X` declaration becomes `public class Main`, and
  non-empty input gets a trailing newline. It then posts one payload and
  folds the service's reply into a result record with the fields `success`,
  `output`, `error`, `time` and `memory`.
- When folding the reply, it checks in this order: an HTTP error, a
  compilation error, a clean run, a failed run and a thrown exception. A
  failed run's message is extended with input-specific guidance when it
  shows a `NoSuchElementException` or an `InputMismatchException`.

The model is pure: datatypes, functions and lemmas. Apart from its three
effects — the `fetch` call, the `Date.now` clock and `console` logging — the
source only computes values. Each part of the source maps to the model as
follows:

- The network call becomes a parameter, `service: Payload -> Transport`. A
  `Transport` is either a rejected `fetch` (`Threw`) or a response with a
  status, a status text and a parsed body.
- The time measured around the call becomes an integer parameter,
  `elapsed`. With these two parameters, `executeCode` is a total function
  `ExecuteCode`.
- The `try`/`catch` becomes the replies on which the source would throw.
  For replies whose streams are strings or missing, these are a rejected
  fetch, an unreadable body and a reply with no run phase. Each of them is
  mapped to the network-failure record.
- JavaScript's `||` on strings is `Text.Or`. A missing, `null` or empty
  string reads as "".
- The global regular expression replace `/public\s+class\s+\w+/g` is
  `JavaNormalization.RenamePublicClass`. It is a left-to-right scan that
  replaces the longest match at each position and resumes after it. The
  scan is proved against an existential description of what the pattern
  matches.
  - `\s` is the ECMAScript WhiteSpace and LineTerminator set.
  - `\w` is `[A-Za-z0-9_]`.

Modules:

- `Wrappers`: `Option`.
- `Text`: string operations and number rendering.
- `Languages`: the table and its queries.
- `JavaNormalization`: the source rewrite and the stdin fix-up.
- `CodeExecutor`: the payload and the interpretation of replies.
- `Scenarios`: concrete calls against fixed replies.

## Model

| member | source | states |
|---|---|---|
| Languages.Find | src/utils/codeExecutor.js:28 | a found descriptor is stored in the table under exactly the requested name; absence means no entry has that name |
| Languages.FindEntry | src/utils/codeExecutor.js:28 | in a table whose names are distinct, looking up an entry's name yields that entry's own descriptor |
| Languages.Lookup | src/utils/codeExecutor.js:28 | `languageMap[language]` yields a descriptor only when one of the eleven entries has exactly that name, and then that entry's descriptor |
| Languages.GetSupportedLanguages | src/utils/codeExecutor.js:162-164 | the list has one name per table entry, in declaration order |
| Languages.IsLanguageSupported | src/utils/codeExecutor.js:171-173 | a language is supported exactly when it is in the supported list, and exactly when the table lookup finds a descriptor |
| Languages.TableNamesDistinct | src/utils/codeExecutor.js:6-18 | no two table entries share a name, as object keys cannot |
| Languages.TableVersionsPinned | src/utils/codeExecutor.js:6-18 | every table entry carries a non-empty version |
| Languages.SupportedLanguagesListed | src/utils/codeExecutor.js:6-18 | the supported languages are exactly javascript, python, java, cpp, c, csharp, ruby, go, rust, typescript and php, in that order |
| Languages.LookupFindsEveryEntry | src/utils/codeExecutor.js:6-18 | each of the eleven entries is found under its own name with its own descriptor |
| Languages.EveryVersionPinned | src/utils/codeExecutor.js:56 | any descriptor the lookup returns has a version, so the `"*"` fallback is never used |
| Languages.JavaDescriptor | src/utils/codeExecutor.js:9 | Java is run as `java` 15.0.2 from a `.java` file |
| Text.Or | src/utils/codeExecutor.js:108 | `a \|\| b` gives one of its operands: the first when it is non-empty; the result is empty only when both are |
| Text.Contains | src/utils/codeExecutor.js:118 | `includes` always finds the empty string and never finds a string longer than the text |
| Text.OccursContains | src/utils/codeExecutor.js:118 | an occurrence at any position is found by `includes` |
| Text.ContainsOccurs | src/utils/codeExecutor.js:118 | what `includes` finds occurs at some position |
| Text.ContainsIff | src/utils/codeExecutor.js:118 | the substring scan holds exactly when the substring occurs at some position |
| Text.ContainsInfix | src/utils/codeExecutor.js:128 | a text with anything put around it still contains it |
| Text.EndsWith | src/utils/codeExecutor.js:49 | `endsWith` holds exactly when the suffix occurs at the last possible position, so the text then contains it |
| Text.NatToDecimal | src/utils/codeExecutor.js:84 | the rendering of a number is a non-empty digit string without a leading zero |
| Text.DecimalRoundTrip | src/utils/codeExecutor.js:84 | reading a rendered number back gives the number |
| Text.IntToDecimal | src/utils/codeExecutor.js:82 | the rendering of an integer is non-empty and starts with a minus sign exactly for negative integers |
| Text.IntToDecimalInjective | src/utils/codeExecutor.js:82 | different integers (statuses, times) render differently |
| JavaNormalization.SpaceRun | src/utils/codeExecutor.js:46 | `\s+` consumes a maximal run: all whitespace, followed by the end or a non-whitespace character |
| JavaNormalization.WordRun | src/utils/codeExecutor.js:46 | `\w+` consumes a maximal run: all word characters, followed by the end or a non-word character |
| JavaNormalization.SpaceRunExact | src/utils/codeExecutor.js:46 | a whitespace prefix ended by a non-whitespace character is exactly the run |
| JavaNormalization.WordRunAtLeast | src/utils/codeExecutor.js:46 | the word run covers every all-word prefix |
| JavaNormalization.WordRunExact | src/utils/codeExecutor.js:46 | a word prefix ended by the end or a non-word character is exactly the run |
| JavaNormalization.MatchLength | src/utils/codeExecutor.js:46 | a match starts with `public`, is longer than `public class` and does not stop inside a word |
| JavaNormalization.MatchLengthSound | src/utils/codeExecutor.js:46 | a reported match has the pattern's shape: `public`, whitespace, `class`, whitespace, a word |
| JavaNormalization.MatchLengthMaximal | src/utils/codeExecutor.js:46 | every prefix of the pattern's shape is covered by the reported match |
| JavaNormalization.MatchLengthIsLongest | src/utils/codeExecutor.js:46 | the reported match is a pattern match, and no pattern match is longer, so greedy matching finds it |
| JavaNormalization.RenamePublicClass | src/utils/codeExecutor.js:46 | the global replace yields an empty text exactly from an empty source; what it does to each match is stated by RenameLeftmost, RenameWithoutOccurrence and RenameWithoutKeyword |
| JavaNormalization.RenameWithoutOccurrence | src/utils/codeExecutor.js:46 | source with no match anywhere is left unchanged |
| JavaNormalization.MatchNeedsKeyword | src/utils/codeExecutor.js:46 | a match can only start where the source contains `class` |
| JavaNormalization.RenameWithoutKeyword | src/utils/codeExecutor.js:46 | whenever the source does not contain the word `class`, the replace leaves it unchanged |
| JavaNormalization.RenameCopiesPrefix | src/utils/codeExecutor.js:46 | a character at which no match starts is kept in front of the rewritten rest |
| JavaNormalization.RenameLeftmost | src/utils/codeExecutor.js:46 | the text before the leftmost match is kept, the match is replaced and the rest is rewritten on its own |
| JavaNormalization.MatchDeclaration | src/utils/codeExecutor.js:46 | `public class` followed by a name matches through the whole name and no further |
| JavaNormalization.RenameDeclaration | src/utils/codeExecutor.js:46 | a leading declaration is renamed to `Main`, whatever the class's name |
| JavaNormalization.RenameSingleDeclaration | src/utils/codeExecutor.js:46 | a source with one declaration and no other `class` becomes `public class Main` with the rest kept verbatim |
| JavaNormalization.TerminateInput | src/utils/codeExecutor.js:49-51 | empty input stays empty; other input ends with a newline, extends the original and gains at most one character; input already ending in a newline is unchanged |
| JavaNormalization.TerminateInputIdempotent | src/utils/codeExecutor.js:49-51 | terminating input twice is the same as doing it once |
| CodeExecutor.NetworkFailure | src/utils/codeExecutor.js:146-155 | the catch record is a well-formed failure |
| CodeExecutor.Elapsed | src/utils/codeExecutor.js:84 | the time text is the decimal rendering of the measurement followed by `ms`, with a minus sign exactly for a negative measurement |
| CodeExecutor.ElapsedInjective | src/utils/codeExecutor.js:84 | different measurements give different time texts |
| CodeExecutor.ExitCodeText | src/utils/codeExecutor.js:116 | a numeric exit code is rendered in decimal, and the text is `null` exactly when the service reported no code |
| CodeExecutor.ExitCodeTextInjective | src/utils/codeExecutor.js:116 | different exit codes give different texts, so the message identifies the code |
| CodeExecutor.SubmittedCode | src/utils/codeExecutor.js:41-46 | only Java source is rewritten; source without the keyword `class` is sent unchanged in every language |
| CodeExecutor.SubmittedInput | src/utils/codeExecutor.js:42-51 | the input sent is empty exactly when the given input is, extends it by at most one character, ends with a newline for non-empty Java input, is untouched when it already ends with a newline, and is untouched for other languages |
| CodeExecutor.BuildPayload | src/utils/codeExecutor.js:54-63 | the payload names the Piston language, a non-empty version (the table's whenever it has one), one file `main.<ext>`, stdin empty exactly when the input is, timeouts 10000/5000 and memory limits -1 |
| CodeExecutor.Request | src/utils/codeExecutor.js:28-38 | a request is posted exactly for supported languages |
| CodeExecutor.RuntimeMessage | src/utils/codeExecutor.js:116 | a failed run's message is never empty. It is its stderr when there is one, otherwise its combined output, otherwise `Process exited with code` followed by the code (or `null`) |
| CodeExecutor.MissingInputMessage | src/utils/codeExecutor.js:118-128 | the missing-input guidance starts with its heading and quotes the original error |
| CodeExecutor.FormatMessage | src/utils/codeExecutor.js:129-136 | the format guidance starts with its heading and quotes the original error |
| CodeExecutor.Enrich | src/utils/codeExecutor.js:115-137 | the original message is always kept. It changes exactly when it shows one of the two Scanner exceptions. A missing-input exception takes precedence over a mismatch |
| CodeExecutor.Interpret | src/utils/codeExecutor.js:79-155 | every reply gives a well-formed result (success exactly when there is no error, exactly one of output and error filled in) timed at 0ms or the measured time; success reports memory as N/A |
| CodeExecutor.ExecuteCode | src/utils/codeExecutor.js:27-156 | every call gives a well-formed result and never throws; success implies a supported language |
| CodeExecutor.UnsupportedLanguage | src/utils/codeExecutor.js:28-38 | an unsupported language gives the fixed record whatever the service and clock would do, so no request is made |
| CodeExecutor.SupportedLanguagePayload | src/utils/codeExecutor.js:54-63 | a supported language posts the table's Piston name and version, one file `main.<ext>`, the processed stdin, timeouts 10000/5000 and memory limits -1; the result is the reading of that reply |
| CodeExecutor.OtherLanguagesUnchanged | src/utils/codeExecutor.js:41-44 | languages other than Java are sent with their code and input untouched |
| CodeExecutor.JavaInputTerminated | src/utils/codeExecutor.js:48-51 | Java stdin is empty exactly when the input is, otherwise ends with a newline, extending the input by at most one character, and is the input itself when it already ends with a newline |
| CodeExecutor.CodeWithoutDeclarationUnchanged | src/utils/codeExecutor.js:41-46 | source with no `public class` declaration is sent unchanged in every language |
| CodeExecutor.JavaFiles | src/utils/codeExecutor.js:46-57 | a Java request carries the single file `main.java` with the renamed source |
| CodeExecutor.JavaDeclarationRenamed | src/utils/codeExecutor.js:44-46 | a Java class is submitted as `Main` whatever it is called, with the rest of the source as written |
| CodeExecutor.TransportErrorFirst | src/utils/codeExecutor.js:79-87 | a non-ok status decides the result, which names the status and its text, before the body is read |
| CodeExecutor.CompileErrorBeforeRun | src/utils/codeExecutor.js:92-101 | a failed compile decides the result before the run phase; the error is the heading then compile stderr, output or the fixed fallback |
| CodeExecutor.SuccessExactlyOnCleanRun | src/utils/codeExecutor.js:103-113 | success happens exactly when the reply reaches the run phase and the run exits 0; the output is then stdout, else combined output, else the no-output text |
| CodeExecutor.RuntimeFailure | src/utils/codeExecutor.js:115-145 | a run exiting non-zero fails with the enriched message. The original message is kept. Missing input gets its heading |
| CodeExecutor.ThrowsAreCaught | src/utils/codeExecutor.js:146-155 | a rejected fetch, an unreadable body and a missing run phase all give the network-failure record |
| CodeExecutor.SameCallSameResult | src/utils/codeExecutor.js:65-77 | identical calls against the same service agree in every field but the measured time |
| CodeExecutor.SameReplySameResult | src/utils/codeExecutor.js:76-77 | the clock affects the reading of a reply only through the time field |
| Scenarios.AnsweredCall | src/utils/codeExecutor.js:65-74 | for a supported language, the result is the reading of the service's fixed reply |
| Scenarios.HelloWorld | src/utils/codeExecutor.js:104-113 | a Python greeting succeeds with the printed text and memory N/A |
| Scenarios.CompileError | src/utils/codeExecutor.js:93-101 | a compile failure reports `Compilation Error:` and the compiler's stderr |
| Scenarios.MissingInput | src/utils/codeExecutor.js:118-128 | a Java `NoSuchElementException` fails with the missing-input heading and quotes the exception |
| Scenarios.ConnectionRefused | src/utils/codeExecutor.js:146-155 | a rejected request gives the network-failure record at 0ms |
| Scenarios.SilentProgram | src/utils/codeExecutor.js:108 | a program that prints nothing succeeds with the no-output text |

## Left out

- Languages.IsLanguageSupported: models membership among the table's eleven own keys. JavaScript's `in` also accepts inherited names such as `toString` or `constructor`, and the model answers false for them.
- Languages.Lookup, CodeExecutor.Request, CodeExecutor.ExecuteCode and CodeExecutor.UnsupportedLanguage: an inherited name also passes the `!meta` test in the source, which then posts a request with `language` undefined, version `"*"` and a file named `main.undefined`. The model returns the unsupported-language record for these names instead.
- The HTTP exchange is not modelled:
  - the endpoint URL and the request headers;
  - the JSON encoding of the payload and the decoding of `res.json()`.

  The service's answer enters the model as an already-parsed `Transport`.
- `Date.now` is not modelled. The measured time is the `elapsed` parameter.
- Logging with `console.log` and `console.error` has no effect on the result and is left out.
- JSON fields of unexpected types are folded into the cases the model has:
  - A falsy non-string stream is treated as "".
  - A truthy non-string `stderr` or `output` of a failed run makes `includes` throw, so the source returns the network-failure record. The model has no such value, because its streams are strings.
  - A non-integer `code` is left out.
  - A body that is `null`, or a rejected `res.json()`, is `Malformed`.
- Strings are sequences of Unicode scalar values, while JavaScript strings are sequences of UTF-16 code units. This makes no difference for the ASCII search strings or for the `\s`/`\w` sets. A lone surrogate in a reply cannot be represented.
- Text.IntToDecimal: renders every integer in plain decimal. JavaScript prints magnitudes of 1e21 and above in exponent form; statuses, times and exit codes never reach that.
- The default `input = ""` of `executeCode` is the caller passing `""`.
- The asynchronous nature of the call is left out. The model is the value that the promise resolves to.
- The user interface components, the authentication helpers and the configuration module are not part of this model.
