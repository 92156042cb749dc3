/** The two execution endpoints of index.js: `POST /run` runs the first two
    test cases of a problem, `POST /submit` runs all of them and reports the
    verdict. Both validate the request body first. */
module JobApi {
  import opened Seqs
  import opened Languages
  import opened Harness
  import opened Executor

  /** The request body; a field that is absent (or null) is `None`. */
  datatype Request = Request(code: Option<string>, language: Option<string>, problemId: Option<string>)

  /** JavaScript truthiness of a string field: present and non-empty. */
  predicate Present(f: Option<string>) {
    f.Some? && f.value != ""
  }

  const InvalidRequest := "Invalid request parameters"
  const ProblemNotFound := "Problem not found"

  /** The properties every plain JavaScript object inherits from
      `Object.prototype`. Indexing `languageConfigs` or `problems` with one of
      these names yields a truthy value (a function, or the prototype itself
      for `__proto__`), so it passes the handlers' truthiness checks. */
  const InheritedNames: set<string> := {
    "constructor", "__proto__", "toString", "toLocaleString", "valueOf", "hasOwnProperty",
    "isPrototypeOf", "propertyIsEnumerable", "__defineGetter__", "__defineSetter__",
    "__lookupGetter__", "__lookupSetter__"
  }

  /** `languageConfigs[language]` is truthy. */
  predicate LanguageFound(language: string) {
    LanguageOf(language).Some? || language in InheritedNames
  }

  /** `problems[problemId]` is truthy. */
  predicate ProblemFound(problemId: string) {
    problemId in Problems || problemId in InheritedNames
  }

  /** What a truthy `problems[problemId]` is: a catalog entry with its test
      cases, or an inherited property, which has no `testCases`. */
  datatype Target = Catalog(testCases: seq<TestCase>) | Inherited

  /** How many test cases the "Run" button executes. */
  const RunSampleSize: nat := 2

  /** The V8 messages of the TypeErrors raised by reading `slice` or `length`
      of the `undefined` that an inherited property's `testCases` is. */
  const SliceOfUndefined := "Cannot read properties of undefined (reading 'slice')"
  const LengthOfUndefined := "Cannot read properties of undefined (reading 'length')"
  const SubmissionFailed := "Submission failed: "

  datatype Response =
    | BadRequest(error: string)
    | ServerFailure(error: string)
    | Unanswered(rejection: string)
    | RunReply(testResults: seq<TestResult>)
    | SubmitReply(accepted: bool, passedTests: nat, totalTests: nat, testResults: seq<TestResult>)

  /** The validation shared by both endpoints, as JavaScript truthiness
      decides it: what `problems[problemId]` found, or the message of the 400
      response. A missing field or an unknown language is reported before an
      unknown problem. */
  function Validate(req: Request): (r: Result<Target>)
    ensures r == Err(InvalidRequest) <==>
      !(Present(req.code) && Present(req.language) && Present(req.problemId) && LanguageFound(req.language.value))
    ensures r == Err(ProblemNotFound) <==>
      && Present(req.code) && Present(req.language) && Present(req.problemId)
      && LanguageFound(req.language.value) && !ProblemFound(req.problemId.value)
    ensures r.Ok? <==>
      && Present(req.code) && Present(req.language) && Present(req.problemId)
      && LanguageFound(req.language.value) && ProblemFound(req.problemId.value)
    ensures r.Ok? && req.problemId.value in Problems ==>
      r.value == Catalog(Problems[req.problemId.value].testCases)
    ensures r.Ok? && req.problemId.value !in Problems ==> r.value == Inherited
  {
    if !Present(req.code) || !Present(req.language) || !Present(req.problemId)
       || !LanguageFound(req.language.value) then
      Err(InvalidRequest)
    else if req.problemId.value in Problems then
      Ok(Catalog(Problems[req.problemId.value].testCases))
    else if req.problemId.value in InheritedNames then
      Ok(Inherited)
    else
      Err(ProblemNotFound)
  }

  predicate Passed(t: TestResult) { t.passed }

  /** `results.filter(r => r.passed).length`. */
  function CountPassed(results: seq<TestResult>): (n: nat)
    ensures n <= |results|
    ensures n == |results| <==> forall i :: 0 <= i < |results| ==> results[i].passed
  {
    FilterKeepsAll(results, Passed);
    |Filter(results, Passed)|
  }

  function Min(a: nat, b: nat): nat { if a < b then a else b }

  /** `POST /run`: on a valid request, the records of the first two test
      cases (fewer if the problem had fewer). An inherited problem name makes
      `problem.testCases.slice` throw outside the handler's `try`, so the
      handler's promise rejects and it writes no reply. */
  method Run(cfg: ConfigTable, docker: Docker, req: Request) returns (resp: Response)
    ensures Validate(req).Err? ==> resp == BadRequest(Validate(req).message)
    ensures Validate(req) == Ok(Inherited) ==> resp == Unanswered(SliceOfUndefined)
    ensures Validate(req).Ok? && Validate(req).value.Catalog? ==>
      var tcs := Validate(req).value.testCases;
      && resp.RunReply?
      && |resp.testResults| == Min(RunSampleSize, |tcs|)
      && forall i :: 0 <= i < |resp.testResults| ==>
           resp.testResults[i] == CaseResult(cfg, docker, req.code.value, req.language.value,
                                             req.problemId.value, tcs, i)
  {
    var v := Validate(req);
    if v.Err? {
      return BadRequest(v.message);
    }
    if v.value.Inherited? {
      return Unanswered(SliceOfUndefined);
    }
    var tcs := v.value.testCases;
    var sample := tcs[..Min(RunSampleSize, |tcs|)];
    var results := RunTestCases(cfg, docker, req.code.value, req.language.value, req.problemId.value, sample);
    forall i | 0 <= i < |results|
      ensures results[i] == CaseResult(cfg, docker, req.code.value, req.language.value,
                                       req.problemId.value, tcs, i)
    {
      assert sample[i] == tcs[i];
    }
    resp := RunReply(results);
  }

  /** `POST /submit`: on a valid request, every test case's record, how many
      passed, and acceptance exactly when all of them passed. An inherited
      problem name reaches `runTestCases` with `undefined` test cases; reading
      their `length` throws inside the handler's `try`, which answers 500. */
  method Submit(cfg: ConfigTable, docker: Docker, req: Request) returns (resp: Response)
    ensures Validate(req).Err? ==> resp == BadRequest(Validate(req).message)
    ensures Validate(req) == Ok(Inherited) ==> resp == ServerFailure(SubmissionFailed + LengthOfUndefined)
    ensures Validate(req).Ok? && Validate(req).value.Catalog? ==>
      var tcs := Validate(req).value.testCases;
      && resp.SubmitReply?
      && resp.totalTests == |tcs| == |resp.testResults|
      && resp.passedTests == CountPassed(resp.testResults)
      && (resp.accepted <==> resp.passedTests == resp.totalTests)
      && (resp.accepted <==> forall i :: 0 <= i < |tcs| ==> resp.testResults[i].passed)
      && forall i :: 0 <= i < |tcs| ==>
           resp.testResults[i] == CaseResult(cfg, docker, req.code.value, req.language.value,
                                             req.problemId.value, tcs, i)
  {
    var v := Validate(req);
    if v.Err? {
      return BadRequest(v.message);
    }
    if v.value.Inherited? {
      return ServerFailure(SubmissionFailed + LengthOfUndefined);
    }
    var tcs := v.value.testCases;
    var results := RunTestCases(cfg, docker, req.code.value, req.language.value, req.problemId.value, tcs);
    var passedTests := CountPassed(results);
    var totalTests := |results|;
    resp := SubmitReply(passedTests == totalTests, passedTests, totalTests, results);
  }

  /** A language name inherited from `Object.prototype` passes validation,
      and then every test case fails in `generateFullCode`'s `default`
      branch: its record is the runtime error "Unsupported language". */
  lemma InheritedLanguageFailsEveryCase(cfg: ConfigTable, docker: Docker, userCode: string, language: string,
                                         problemId: string, tcs: seq<TestCase>, i: nat)
    requires language in InheritedNames && i < |tcs|
    ensures LanguageFound(language)
    ensures var t := CaseResult(cfg, docker, userCode, language, problemId, tcs, i);
      !t.passed && t.actualOutput == RuntimePrefix + UnsupportedLanguage
  {
    assert LanguageOf(language).None?;
  }

  /** For the one catalog problem, "Run" executes two test cases and
      "Submit" five. */
  lemma CatalogSizes()
    ensures Min(RunSampleSize, |Problems[AddTwoNumbers].testCases|) == 2
    ensures |Problems[AddTwoNumbers].testCases| == 5
  {
  }
}
