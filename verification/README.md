# Hiring platform core in Dafny

This project models the deterministic core of a campus-hiring platform.

**Code-execution service (index.js).** It takes a submission (user code, language key, problem id) and does the following:
- wraps the code in a per-test-case driver with the test inputs written as source literals;
- compiles it in a container when the language needs that;
- runs it and demultiplexes the container's framed log stream into stdout and stderr;
- compares the trimmed stdout with the expected value.

`/run` evaluates the first two test cases and `/submit` evaluates all of them.

Beside it sit three smaller pieces:
- **Interview service (interview.py):** the phase state machine, resume upload acceptance, the conversation-history formatter and session expiry.
- **HR dashboard service (coding.py):** the email recogniser and the validation order of its endpoints.
- **Question library page (QuestionBank.jsx):** the filter, relative-time labels, filter choices and difficulty badges.

Modules, one per file:

| file | module | models |
|---|---|---|
| seqs.dfy | `Seqs` | option/result wrappers, infix search, order-preserving filters, subsequences, first-occurrence de-duplication |
| text.dfy | `Text` | JavaScript `trim` and Python `strip` whitespace sets, decimal rendering, Python `int` on strings, ASCII lower-casing, `rsplit('.', 1)` |
| demux.dfy | `LogDemux` | `parseLogs` and the frame format it reads |
| languages.dfy | `Languages` | `languageConfigs`, source file names, the corrected table |
| harness.dfy | `Harness` | the problem catalog, the four `generate*TestCall` functions and `generateFullCode` |
| executor.dfy | `Executor` | `runInDocker` over a container oracle, `executeTestCase`, `runTestCases` |
| jobapi.dfy | `JobApi` | the `/run` and `/submit` handlers |
| interview.dfy | `Interview` | interview.py's phase table, counters, `submit_response`, `upload_resume`, cleanup |
| email.dfy | `Email` | `is_valid_email` |
| accounts.dfy | `Accounts` | coding.py's signup, login, candidate login, role, student, results and random-question handlers |
| questionbank.dfy | `QuestionBank` | QuestionBank.jsx's filter effect, `formatTimeAgo`, filter choices, `getDifficultyColor` |

**External effects are parameters:**
- **Containers.** A `Docker` is a function from (earlier steps, current step) to either the exited container's raw log bytes or a failure message. A failure message covers the 10-second timeout and every dockerode error, because `runInDocker` turns all of them into an error string. Each step records the image, the command, the written file name and the generated source.
- **Interview and HR services.** The language model (evaluator and question generator), the text extractors, `secure_filename`, the session id, the random choice of opening question and the clock are parameters. bcrypt hashing and checking are parameters, `float(percentage)` is a parameter, and the MongoDB collections are in-memory maps and sequences.
- **Question library.** The current time enters only as the millisecond difference `now - date`.

The execution pipeline is stated for any language table (`Languages.ConfigTable`). `Languages.Config` is the table as written. `Languages.CorrectedConfig` is the same table with the C and C++ compile commands fixed (see Findings).

## Model

| member | source | states |
|---|---|---|
| LogDemux.ParseLogs | index.js:401-438 | The offset loop returns exactly the reference demultiplexing `Demux`: the recursive frame walk, then the keyword fallback. |
| LogDemux.ReadUInt32BEInverse | index.js:412 | Reading bytes 4-7 big-endian recovers any length below 2^32 that a writer encoded. |
| LogDemux.WalkOneFrame | index.js:410-424 | One complete frame adds its payload to the stream its selector names (nothing for selectors other than 1 and 2), then parsing resumes right after it. |
| LogDemux.WalkFrames | index.js:407-425 | Over a concatenation of complete frames followed by any tail, the walk yields the selector-1 payloads and selector-2 payloads in order, followed by the tail's contribution. |
| LogDemux.DemuxOrder | index.js:407-425 | On a buffer made of complete frames, stdout is the in-order concatenation of the selector-1 payloads and stderr that of the selector-2 payloads, whatever the interleaving. Header bytes 1-3 play no part. |
| LogDemux.TruncatedTailIgnored | index.js:408-414 | A trailing header shorter than 8 bytes, or a payload running past the end, contributes nothing. |
| LogDemux.FallbackClassification | index.js:428-435 | When frame parsing yields nothing, the whole raw buffer becomes stderr exactly when it contains "error", "Error" or "Exception", and stdout otherwise. |
| LogDemux.SilentFramesFallBack | index.js:418-435 | Well-formed frames with empty or unknown-selector payloads fall back to the raw-buffer classification, header bytes included. |
| Languages.LanguageOf | index.js:118 | A key is recognised exactly when it is one of the table's four keys, and it maps back to that key. |
| Languages.Config | index.js:13-37 | Only Python has no compile step. |
| Languages.AsWrittenReadsWrittenFile | index.js:205-214 | As written, the first toolchain step names the written file for Java and Python only. C and C++ compile `/code/temp.c` and `/code/temp.cpp` (lines 17 and 23), while the file written is `solution.c` or `solution.cpp`. |
| Languages.CorrectedConfig | index.js:13-37 | The corrected table differs from the original only in the C and C++ compile commands. |
| Languages.CorrectedReadsWrittenFile | index.js:207 | With the corrected table, every language's first step reads the file that was written. |
| Harness.JavaTestCall | index.js:302-310 | An unknown problem yields "Unknown problem". Otherwise the snippet starts with the `int result = solution.addTwoNumbers(a, b);` call on the two input literals. |
| Harness.PythonTestCall | index.js:312-320 | The same for Python's `result = add_two_numbers(a, b)`. |
| Harness.CppTestCall | index.js:322-330 | The same for C++'s `int result = addTwoNumbers(a, b);`. |
| Harness.CTestCall | index.js:332-340 | The same for C's `int result = addTwoNumbers(a, b);`. |
| Harness.GenerateFullCode | index.js:251-300 | Success exactly for a known language and the known problem. An unknown language reports "Unsupported language" whatever the problem. The source starts with the language's preamble and contains both the user's code and the test call. |
| Harness.JavaClassMatchesFileName | index.js:256-258 | The Java driver declares `public class Solution`, matching the fixed file name `Solution.java`. |
| Harness.CatalogHasTwoInputs | index.js:51-57 | Every catalog test case has two inputs, so no driver argument renders as `undefined`. |
| Harness.ArgDenotesInput | index.js:305 | An injected argument literal reads back (by Python `int`) as the input it was written from. |
| Executor.Decode | index.js:416 | Payload bytes decode one character per byte (a Latin-1 stand-in). |
| Executor.RunInDocker | index.js:342-399 | A failed container gives empty output and a non-empty error: the failure's message, or the fallback text when that is empty. Output is always trimmed, and so is the error of an exited container. |
| Executor.FramedRun | index.js:374-385 | For framed logs with some payload, the step's output and error are the trimmed decoded stdout and stderr payload concatenations. |
| Executor.TimeoutIsError | index.js:366-389 | A timed-out step reports "Execution timeout" as its error, with no output. |
| Executor.ExecuteTestCase | index.js:199-249 | Generation failures end the case before any container step. Otherwise there are 1 or 2 steps: compile first exactly when the table has a compile command, every step on the same image, file and source. The case yields a record exactly when every step's error was empty and the run step ran. The record says passed exactly when the trimmed output equals the expected value's decimal text. Otherwise the last step taken reported a non-empty error, and the thrown message is "Compilation Error: " plus that error for the compile step, or the error itself for the run step. The run step follows a compile step only when the compile reported no error. |
| Executor.Steps | index.js:205-229 | The container part of `executeTestCase`, for any file name and source. It has the same step and pass conditions and the same thrown messages: "Compilation Error: " plus the compiler's error, or the run step's error. |
| Executor.Compare | index.js:221-239 | A non-empty run error aborts with that error, even if stdout is correct. Otherwise the record carries id, input text, expected text and actual output, and passed iff actual equals expected. |
| Executor.ResultFor | index.js:180-192 | A thrown error becomes a failed record whose actual output is "Runtime Error: " plus the message. |
| Executor.RuntimeErrorNeverMatches | index.js:188 | A "Runtime Error: ..." text never equals a decimal integer, so a caught error can never pass. |
| Executor.CaseResult | index.js:178-193 | The i-th record has id i+1, the case's input and expected texts, and passed iff actual equals expected. It is the execution's own record when there is one. When the execution threw, it is a failed record whose actual output is "Runtime Error: " plus the message. |
| Executor.CaseResults | index.js:178-194 | The records of the first n test cases, one per case in order, each the case's own result. |
| Executor.RunTestCases | index.js:174-197 | Exactly one record per test case, in order, the i-th being that case's own result. |
| Executor.CompileFailureStopsBeforeRun | index.js:213-218 | Once the source is generated for a language with a compile command, a compile step with any error output stops the case before the run step. The record is a failed runtime error whose message starts with "Compilation Error: ". |
| Executor.FramedRunPasses | index.js:221-229 | End to end, once the source is generated for a language without a compile step: if the run writes frames with stdout payload and no stderr payload, the case passes exactly when the trimmed stdout payloads spell the expected value. |
| Executor.CorrectedFirstStepReadsSource | index.js:205-214 | For every generated source, with the corrected table, the first step's last argument is the mount path plus the name the source was written under. |
| JobApi.Validate | index.js:116-124 | Validation follows JavaScript truthiness. "Invalid request parameters" exactly when code, language or problem id is empty or missing, or `languageConfigs[language]` is falsy. "Problem not found" exactly when those pass but `problems[problemId]` is falsy. A name inherited from `Object.prototype` (such as "constructor" or "__proto__") is truthy in both tables. A catalog id yields its test cases; an inherited id yields an entry without them. |
| JobApi.CountPassed | index.js:155-157 | The passed count is at most the total and equals it exactly when every record passed. |
| JobApi.Run | index.js:115-136 | An invalid request gets its 400. An inherited problem id makes `problem.testCases.slice` throw before the `try`, so the handler rejects without a reply. A catalog problem gets the records of its first min(2, n) test cases, each the case's own result. |
| JobApi.Submit | index.js:139-172 | An invalid request gets its 400. An inherited problem id reaches `runTestCases` with undefined test cases, so reading their `length` throws inside the `try`: 500 "Submission failed: …". A catalog problem gets one record per test case with totalTests = n, passedTests equal to the number of passed records, and accepted exactly when passedTests = totalTests, that is, when every record passed. |
| JobApi.InheritedLanguageFailsEveryCase | index.js:251-299 | A language name inherited from `Object.prototype` passes validation. Every test case then fails in `generateFullCode`'s `default` branch with the runtime error "Unsupported language". |
| JobApi.CatalogSizes | index.js:127 | For the catalog problem, Run evaluates 2 cases and Submit 5. |
| Interview.Index | interview.py:222-223 | A phase's position in the dictionary's key order. |
| Interview.PhasesFormAChain | interview.py:60-65 | Each phase's `next_phase` is the next key in order, and only the last phase completes. |
| Interview.TotalQuestionsIsTen | interview.py:217-218 | The total is 2+3+3+2 = 10. |
| Interview.QuestionsBefore | interview.py:220-229 | The questions before each phase number 0, 2, 5 and 8. |
| Interview.Advance | interview.py:290-310 | One accepted answer increments the count. At the phase's quota the phase moves to its successor with count 0, or, after the last phase, the interview completes with the phase unchanged. |
| Interview.CountingInvariant | interview.py:291-320 | After k accepted answers from a fresh session, the reported question number is k+1, and `interview_complete` holds exactly when k ≥ 10. |
| Interview.Answer | interview.py:290-320 | A live session's answer is appended with its evaluation; the counters advance by one step; the next question is asked and stored only when the interview is not complete, the closing text otherwise; no other session changes. The next question is what the generator returns for the session as updated so far (answer appended, counters advanced) and the stripped answer. |
| Interview.SubmitResponse | interview.py:271-323 | An unknown or empty session id is refused, and so is a response that is blank after `strip`, with every session unchanged. Otherwise only that session changes: the stripped answer is appended with its score and feedback; the counters advance; a new question is appended and becomes the last question only when the interview is not complete; the closing text is sent on completion. That question is the generator's output for the updated session and the stripped answer. |
| Interview.AnswerAdvancesQuestionNumber | interview.py:290-320 | An answer given at question k+1 reports question k+2, and completion exactly when k+1 ≥ 10. |
| Interview.FormatConversationHistory | interview.py:124-131 | The empty conversation formats to "". A single HR message formats to "Sarah (HR): " + text + line break, and a single candidate message to "Candidate: " + text + line break. A non-empty history ends with a line break. |
| Interview.FormatAppend | interview.py:124-131 | The history of a conversation extended by messages is the old history followed by theirs. |
| Interview.AllowedFileIff | interview.py:69-70 | A name is accepted exactly when it is stem "." extension, with no dot in the extension and the lower-cased extension among txt, pdf, doc, docx. |
| Interview.ExtractorFor | interview.py:102-107 | "pdf" maps to the PDF reader, "docx" to the DOCX reader and "txt" to the text reader, each exactly for that extension. Among the allowed extensions, only "doc" has no reader. |
| Interview.ExtractResumeText | interview.py:102-107 | A name without a dot raises "list index out of range", and only such a name raises. An extension with a reader yields that reader's text of the upload. Any other extension yields "". |
| Interview.NewSession | interview.py:249-258 | A fresh session starts at question 1 of self_intro, with the chosen opening question as its only message and its last question, and keeps the resume text and creation time. |
| Interview.UploadResume | interview.py:232-269 | No file gives 400 "No file part", and a disallowed name gives 400 "Invalid file". Every refusal leaves the sessions unchanged. An interview starts exactly when the name is allowed and the text extracted under the sanitised name is not blank after `strip`. Starting adds exactly one session under the given id. It holds the extracted text, sits at question 1 with the opening question asked, and the reply names that id, phase "self_intro" and 10 questions. For an allowed name, an extraction that raises gives 500 "Server error during upload: " plus the message, and blank text gives 400 "Could not extract text from resume". |
| Interview.Ingest | interview.py:239-269 | An extraction that raises gives 500 "Server error during upload: " + message. Text that is blank after `strip` (empty or whitespace only) gives 400 "Could not extract text from resume", and only such text does. Non-blank text starts the interview, storing exactly one new session as above, holding that text. Refusals leave the sessions unchanged. |
| Interview.Open | interview.py:249-268 | Opening stores exactly one new session under the given id, holding the given resume text, at question 1 of 10, with the opening question as its only message. The reply names the id and phase "self_intro". The other sessions are unchanged. |
| Interview.DocResumeRefused | interview.py:236-246 | A ".doc" resume passes the name check and is then refused for lack of text. |
| Interview.DocHasNoExtractor | interview.py:102-107 | For any stem, "stem.doc" is allowed and extracts to "". |
| Interview.Cleanup | interview.py:332-336 | Exactly the sessions older than two hours are removed, and the rest are kept unchanged. |
| Interview.ExpiryBoundary | interview.py:335 | A session exactly two hours old survives; one microsecond older, it is removed. |
| Email.CoreIsShape | coding.py:20-23 | The decision procedure (first '@', last dot) accepts exactly the strings of the shape L '@' D '.' T: L non-empty over [A-Za-z0-9._%+-], D non-empty over [A-Za-z0-9.-], T at least two ASCII letters. |
| Email.ShapeDecided | coding.py:22 | Every string of that shape passes the decision procedure. |
| Email.ValidEmailIff | coding.py:20-23 | `is_valid_email` accepts exactly the shape, or the shape followed by one "\n", which `$` tolerates. |
| Email.SingleAt | coding.py:22 | Every accepted address contains exactly one '@'. |
| Email.TrailingLineFeed | coding.py:23 | An accepted address stays accepted with one line feed appended. |
| Email.AcceptsTypicalAddress | coding.py:22 | "jo.doe+hr@mail.example.com" is accepted. |
| Accounts.Len | coding.py:39 | Python `len` is defined on strings, lists and objects only. It gives the character count, the item count or the key count. |
| Accounts.PyIntOf | coding.py:154-155 | `int` keeps integers, maps booleans to 1 and 0, parses strings as Python `int` does, and fails on null, lists and objects. |
| Accounts.Signup | coding.py:27-52 | The checks run in order, and each outcome holds exactly under its condition: missing field (400), bad email (400), password shorter than 6 by `len` (400), registered email (409), and success (201). A 201 stores the hash under the email. Every other input gets the generic 500 "An internal server error occurred": a non-object body, a non-string email, or a password without `len` or `encode`. |
| Accounts.SixCharactersSuffice | coding.py:39-40 | For an unregistered valid address, a 6-character password is accepted and a 5-character one gets the length error. |
| Accounts.SignupTwiceConflicts | coding.py:41-42 | Repeating a successful signup gets 409 "Email already registered". |
| Accounts.SignupThenLogin | coding.py:44-70 | After a successful signup, the same credentials log in, given a checker that accepts a password against its own hash. |
| Accounts.Login | coding.py:54-73 | Missing fields give 400. An unknown email and a wrong password both give exactly 401 "Invalid email or password". A 200 comes exactly for a registered string email with a string password that checks against its stored hash, and it names that email. Every other input gets the generic 500, such as a registered email with a non-string password. |
| Accounts.FindStudent | coding.py:203 | The lookup finds the first student whose email equals the query, and fails only when none does. |
| Accounts.CreateStudent | coding.py:189-224 | A missing hrEmail gives 400, a missing required key 400, and an existing email 409, each exactly under its condition. A 201 comes exactly for a complete body with a new email and a string password. A created student has status "Eligible" and is appended with the hash; the reply is the record without it. Every other input gets the generic 500, such as a new email with a non-string password. |
| Accounts.CreateStudentTwiceConflicts | coding.py:203-204 | Adding the same student twice gets 409 the second time. |
| Accounts.CandidateLogin | coding.py:76-111 | Missing fields give 400. An unknown email and a wrong password both give exactly 401 "Invalid credentials". A 200 comes exactly for a stored student's email with a string password that checks against that student's hash. The reply shows name, email, role, rollNo and status but not the hash. Every other input gets the generic 500, such as a found student with a non-string password. |
| Accounts.CreateRole | coding.py:133-166 | A missing hrEmail gives 400, and any of the six required keys absent gives 400. Success exactly when both counts convert with `int`. The role is appended with studentsCount 0, status "Draft", and duration defaulting to "60" only when the key is absent. Every other input gets the generic 500, such as a count that `int` rejects. |
| Accounts.AddRole | coding.py:154-166 | With the required keys present, the role is stored exactly when both counts convert with `int`; otherwise the handler fails with a 500. |
| Accounts.RoleCountsFromText | coding.py:154-155 | Counts sent as decimal strings are stored as the integers they spell. |
| Accounts.In | coding.py:264 | The `in` test raises exactly on a number, boolean or null. |
| Accounts.SubmitResults | coding.py:251-293 | A falsy candidate, or one lacking any of id, email, rollNo, role, status, gives 400. Otherwise any of score, percentage, total_questions or round being absent or null gives 400. A stored result copies the candidate fields and the converted numbers. A result is stored exactly when the body is an object and the candidate is an object holding all five fields. All four numbers must also be present, non-null and convertible. Every other input gets the generic 500: a non-object body or candidate, or a number that does not convert. |
| Accounts.StringCandidateCrashes | coding.py:264-271 | A string candidate that names every field passes the membership test and then fails on indexing: it is never stored. |
| Accounts.CountParam | coding.py:236 | An absent count, or one that `int` cannot convert, means 5. A convertible count means the integer `int` reads from it. |
| Accounts.GetRandomQuestions | coding.py:226-249 | 404 exactly when the collection is empty, and a sample exactly when it is not. Otherwise the sample size is at most the total and at most the count, and equals one of them. |
| Accounts.RandomQuestionCount | coding.py:231-236 | The size is min(count, total) for a count written in decimal, and min(5, total) when no count is given. |
| QuestionBank.NextStage | QuestionBank.jsx:65-79 | One stage of the effect: an empty filter leaves the list alone, and a set one narrows it by its condition. |
| QuestionBank.FilterIsKeep | QuestionBank.jsx:62-82 | The four successive filters equal one order-preserving filter by "matches every non-empty filter". |
| QuestionBank.FilteredIsSubsequence | QuestionBank.jsx:62-81 | The filtered list is a subsequence of the questions, in the original order. |
| QuestionBank.EmptyFiltersShowAll | QuestionBank.jsx:62-81 | With every filter empty, the list is unchanged. |
| QuestionBank.ShownIff | QuestionBank.jsx:65-79 | A question is shown exactly when it is in the list and matches every non-empty filter: category, company and difficulty by equality, and search as a case-folded substring of title or experience. |
| QuestionBank.NarrowingOnlyRemoves | QuestionBank.jsx:65-79 | Setting more filters yields a subsequence of what fewer filters showed. |
| QuestionBank.Classify | QuestionBank.jsx:45-57 | "Just now" exactly below one minute, including negative differences. The date label from 30 days on. Otherwise a count n ≥ 1 of the largest fitting unit with n·unit ≤ diff < (n+1)·unit, the unit chosen by minute, hour, day and week boundaries. |
| QuestionBank.FormatTimeAgo | QuestionBank.jsx:45-58 | The locale date is used exactly from 30 days on, and "Just now" below a minute. |
| QuestionBank.PluralIffMoreThanOne | QuestionBank.jsx:54-57 | The label starts with the chosen count and unit, and ends in "s ago" exactly when the count exceeds one. |
| QuestionBank.OneMinuteSingular | QuestionBank.jsx:53-54 | One minute reads "1 minute ago", two read "2 minutes ago", and a negative difference reads "Just now". |
| QuestionBank.UniqueCategories | QuestionBank.jsx:124 | Every question's category appears, nothing else appears, and nothing appears twice. |
| QuestionBank.UniqueCompanies | QuestionBank.jsx:125 | The same for companies. |
| QuestionBank.ChoicesInFirstOccurrenceOrder | QuestionBank.jsx:124-125 | The choices are listed in order of first occurrence. |
| QuestionBank.DifficultyColor | QuestionBank.jsx:115-122 | The gray default is returned exactly for values other than Easy, Medium and Hard. |
| QuestionBank.BadgesDistinguishDifficulties | QuestionBank.jsx:115-122 | Two difficulties share a badge exactly when they are equal or both unknown. |

## Left out

- **Container and filesystem effects** (`createContainer`, `start`, `wait`, `logs`, `remove`, `mkdir`, `writeFile`, `rm`) and the `Promise.race` timer: a container step is the `Docker` oracle. A timeout is the oracle's failure "Execution timeout".
- **Executor.Decode:** payloads are decoded one character per byte. `Buffer.toString` decodes UTF-8 per frame, so multi-byte characters, and characters split across frames, are not modelled.
- **Mocked and time-based record fields** are dropped from the records: `executionTime`, `memory`, `submissionId` and the `Date.now` directory name.
- **The 500 branch of `/run`** is never taken. `runTestCases` catches every error of a case, and the one error `/run` can meet outside it, an inherited problem id, is raised before the `try`.
- **JobApi.Run:** an inherited problem id is modelled as a rejection of the handler's promise that writes no reply. What Express and Node then do with the unhandled rejection is not modelled; it may be logged, or it may end the process.
- **The unused `input` parameter of `runInDocker`:** there is no stdin path.
- **The `/problem` GET endpoints and `codeTemplates`.**
- **JobApi.Validate:** request fields are strings or absent. Non-string JSON values for code, language or problemId are not modelled.
- **Text.IntToString:** renders plain decimal. JavaScript switches to exponent notation at 10^21, which the catalog values never reach.
- **Text.PyInt:** accepts ASCII digits only. Python's `int` also reads other Unicode decimal digits ("٣" is 3), and so do the counts of create_role and get_random_questions; such strings are treated as unconvertible here.
- **Interview services as parameters.** The language model calls, text-to-speech, audio files and their cleanup, the regex scraping of skills/projects/experience (whose `set` order is nondeterministic) and the PDF/DOCX/TXT readers are not modelled; the readers are the `ExtractorRun` parameter.
- **Interview.NewSession, Interview.Ingest:** take the opening question as a parameter. Interview.UploadResume chooses it by its `pick` flag between the two fixed texts of `generate_initial_question`; the random draw itself is not modelled.
- **Interview.SubmitResponse:** `response` is a string, "" when absent. A JSON null or non-string response raises in `strip` before validation; that 500 is not modelled. The session id is a string or absent. A list or object id raises TypeError in the `in` test (interview.py:277), giving a 500 that is not modelled. The question generator `ask` always returns. When `generate_contextual_question` raises (interview.py:161-167), the request gives a 500. The session then keeps the answer already appended and the counters already advanced (interview.py:286-310). That half-updated state is not modelled.
- **Interview.AllowedFileIff:** lower-cases ASCII only. Python's Unicode `lower` maps no non-ASCII character onto the ASCII letters of the four extensions, so acceptance is unaffected.
- **Accounts:** MongoDB query semantics beyond equality are not modelled. An object or list used as an email is compared by plain equality; MongoDB would apply `$` operators or match array elements. A non-string HR email matches no user.
- **Accounts.Signup:** `created_at`, ObjectIds and the bcrypt salt are not modelled.
- **Accounts.SubmitResults:** `float(percentage)` is the `toFloat` parameter, and JSON numbers are integers only. `int` of a JSON float (truncation) is not modelled.
- **Accounts.GetRandomQuestions:** stops at the size requested from `$sample`. The sampling itself, and MongoDB's answer to a negative count, are not modelled.
- **The GET endpoints of coding.py** (roles and students by hrEmail) are plain queries.
- **question_api.py, sub.py (a copy of `submit_results`), app.py** (face matching on floats) and the UI components other than the library page's pure helpers.
- **QuestionBank.FormatTimeAgo:** the `toLocaleDateString` text from 30 days on, and the parsing of the date string, are not modelled. The model's input is the exact millisecond difference.
- **QuestionBank.MatchesSearch:** lower-cases ASCII only, not the full Unicode `toLowerCase`.

## Findings

| source | as written | input that shows it | evidently intended | confidence | as-written member | corrected member |
|---|---|---|---|---|---|---|
| index.js:17 | The C compile command reads `/code/temp.c` (C++ reads `/code/temp.cpp`, line 23), but `executeTestCase` writes the source as `solution.c` / `solution.cpp` (line 207). | Any C or C++ submission to the catalog problem: the compile step names a file the workspace does not hold, so every such test case becomes "Runtime Error: Compilation Error: …". | The compile commands name the file that was written. | not executed | Languages.AsWrittenReadsWrittenFile | Languages.CorrectedReadsWrittenFile |
