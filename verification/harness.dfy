/** Literal-injection harness generation (index.js): the problem catalog,
    the four per-language test-call generators and `generateFullCode`, which
    wraps the user's code with a driver that calls it on one test case's
    inputs written as source literals and prints the result.
    Line breaks inside the source's template literals are LF: ECMAScript
    normalises the file's CRLF line ends inside templates. */
module Harness {
  import opened Seqs
  import opened Text
  import opened Languages

  datatype TestCase = TestCase(input: seq<int>, expected: int)

  datatype Problem = Problem(title: string, difficulty: string, testCases: seq<TestCase>)

  const AddTwoNumbers := "add-two-numbers"
  const UnknownProblem := "Unknown problem"
  const UnsupportedLanguage := "Unsupported language"

  /** The static catalog `problems`. */
  const Problems: map<string, Problem> := map[
    AddTwoNumbers := Problem("Add Two Numbers", "Easy", [
      TestCase([12, 5], 17),
      TestCase([-10, 4], -6),
      TestCase([0, 0], 0),
      TestCase([100, -100], 0),
      TestCase([-50, -25], -75)
    ])
  ]

  /** `${testCase.input[i]}`: the decimal literal, or "undefined" past the end. */
  function Arg(tc: TestCase, i: nat): string {
    if i < |tc.input| then IntToString(tc.input[i]) else "undefined"
  }

  /** `testCase.input.join(", ")`, the input column of a test result. */
  function InputText(tc: TestCase): string {
    Join(seq(|tc.input|, i requires 0 <= i < |tc.input| => IntToString(tc.input[i])), ", ")
  }

  /** The call of the user's function with the two literals, in the syntax of
      language `l`, as it appears inside the generated driver. */
  function CallText(l: Language, tc: TestCase): string {
    match l
    case Java => "solution.addTwoNumbers(" + Arg(tc, 0) + ", " + Arg(tc, 1) + ")"
    case Python => "add_two_numbers(" + Arg(tc, 0) + ", " + Arg(tc, 1) + ")"
    case _ => "addTwoNumbers(" + Arg(tc, 0) + ", " + Arg(tc, 1) + ")"
  }

  function JavaTestCall(problemId: string, tc: TestCase): (r: Result<string>)
    ensures problemId != AddTwoNumbers <==> r == Err(UnknownProblem)
    ensures r.Ok? ==> IsPrefix("int result = " + CallText(Java, tc) + ";", r.value)
  {
    if problemId == AddTwoNumbers then
      var head := "int result = " + CallText(Java, tc) + ";";
      PrefixOfConcat(head, "\n        System.out.println(result);");
      Ok(head + "\n        System.out.println(result);")
    else Err(UnknownProblem)
  }

  function PythonTestCall(problemId: string, tc: TestCase): (r: Result<string>)
    ensures problemId != AddTwoNumbers <==> r == Err(UnknownProblem)
    ensures r.Ok? ==> IsPrefix("result = " + CallText(Python, tc), r.value)
  {
    if problemId == AddTwoNumbers then
      var head := "result = " + CallText(Python, tc);
      PrefixOfConcat(head, "\n    print(result)");
      Ok(head + "\n    print(result)")
    else Err(UnknownProblem)
  }

  function CppTestCall(problemId: string, tc: TestCase): (r: Result<string>)
    ensures problemId != AddTwoNumbers <==> r == Err(UnknownProblem)
    ensures r.Ok? ==> IsPrefix("int result = " + CallText(Cpp, tc) + ";", r.value)
  {
    if problemId == AddTwoNumbers then
      var head := "int result = " + CallText(Cpp, tc) + ";";
      PrefixOfConcat(head, "\n    cout << result << endl;");
      Ok(head + "\n    cout << result << endl;")
    else Err(UnknownProblem)
  }

  function CTestCall(problemId: string, tc: TestCase): (r: Result<string>)
    ensures problemId != AddTwoNumbers <==> r == Err(UnknownProblem)
    ensures r.Ok? ==> IsPrefix("int result = " + CallText(C, tc) + ";", r.value)
  {
    if problemId == AddTwoNumbers then
      var head := "int result = " + CallText(C, tc) + ";";
      PrefixOfConcat(head, "\n    printf(\"%d\\n\", result);");
      Ok(head + "\n    printf(\"%d\\n\", result);")
    else Err(UnknownProblem)
  }

  function TestCall(l: Language, problemId: string, tc: TestCase): (r: Result<string>)
    ensures problemId != AddTwoNumbers <==> r == Err(UnknownProblem)
  {
    match l
    case Java => JavaTestCall(problemId, tc)
    case Python => PythonTestCall(problemId, tc)
    case Cpp => CppTestCall(problemId, tc)
    case C => CTestCall(problemId, tc)
  }

  /** The Java driver's opening: imports, then the class declaration. */
  const JavaImports := "import java.util.*;\n\n"
  const JavaClassLine := "public class " + JavaClassName + " {"

  /** The whole source for one test case: the language is dispatched first,
      so an unknown language reports "Unsupported language" whatever the
      problem; a known language with an unknown problem reports "Unknown
      problem". */
  function GenerateFullCode(userCode: string, language: string, problemId: string, tc: TestCase): (r: Result<string>)
    ensures r.Ok? <==> LanguageOf(language).Some? && problemId == AddTwoNumbers
    ensures LanguageOf(language).None? ==> r == Err(UnsupportedLanguage)
    ensures LanguageOf(language).Some? && problemId != AddTwoNumbers ==> r == Err(UnknownProblem)
    ensures r.Ok? ==> Contains(r.value, userCode)
    ensures r.Ok? ==> Contains(r.value, TestCall(LanguageOf(language).value, problemId, tc).value)
    ensures r.Ok? ==> IsPrefix(Preamble(LanguageOf(language).value), r.value)
  {
    match LanguageOf(language)
    case None => Err(UnsupportedLanguage)
    case Some(l) =>
      var call := TestCall(l, problemId, tc);
      if call.Err? then Err(call.message)
      else Ok(Assemble(l, userCode, call.value))
  }

  /** The driver around the user's code and the test call. */
  function Assemble(l: Language, userCode: string, call: string): (source: string)
    ensures Contains(source, userCode) && Contains(source, call)
    ensures IsPrefix(Preamble(l), source)
  {
    var pre := Preamble(l);
    var lead := Postamble(l) + "\n" + Indent(l);
    var rest := lead + call + Footer(l);
    ContainsMiddle(pre, userCode, rest);
    ContainsMiddle(lead, call, Footer(l));
    ContainsExtendLeft(pre + userCode, rest, call);
    PrefixOfConcat3(pre, userCode, rest);
    pre + userCode + rest
  }

  /** Text before the user's code. */
  function Preamble(l: Language): string {
    match l
    case Java => JavaImports + JavaClassLine + "\n    "
    case Python => ""
    case Cpp => "#include <iostream>\n#include <vector>\n#include <string>\nusing namespace std;\n\n"
    case C => "#include <stdio.h>\n#include <stdlib.h>\n\n"
  }

  /** Text after the user's code, up to the driver's statement. */
  function Postamble(l: Language): string {
    match l
    case Java => "\n    \n    public static void main(String[] args) {\n        Solution solution = new Solution();"
    case Python => "\n\nif __name__ == \"__main__\":"
    case _ => "\n\nint main() {"
  }

  function Indent(l: Language): string {
    if l == Java then "        " else "    "
  }

  function Footer(l: Language): string {
    match l
    case Java => "\n    }\n}"
    case Python => ""
    case _ => "\n    return 0;\n}"
  }

  /** The Java driver declares the class that the fixed file name requires. */
  lemma JavaClassMatchesFileName(userCode: string, tc: TestCase)
    ensures var r := GenerateFullCode(userCode, Key(Java), AddTwoNumbers, tc);
            && r.Ok?
            && Contains(r.value, JavaClassLine)
            && JavaClassName + ".java" == SourceFileName(Java, Config(Java))
  {
    var r := GenerateFullCode(userCode, Key(Java), AddTwoNumbers, tc);
    KeyIsKnown(Java);
    StartsWithPreamble(userCode, tc, Java);
    JavaPreamble();
    ContainsInPrefixMiddle(JavaImports, JavaClassLine, "\n    ", r.value);
    JavaFileName();
  }

  lemma JavaFileName()
    ensures JavaClassName + ".java" == SourceFileName(Java, Config(Java))
  {
    assert SourceFileName(Java, Config(Java)) == "Solution.java";
  }

  lemma KeyIsKnown(l: Language)
    ensures LanguageOf(Key(l)) == Some(l)
  {
  }

  lemma StartsWithPreamble(userCode: string, tc: TestCase, l: Language)
    requires LanguageOf(Key(l)) == Some(l)
    ensures var r := GenerateFullCode(userCode, Key(l), AddTwoNumbers, tc);
            r.Ok? && IsPrefix(Preamble(l), r.value)
  {
  }

  lemma JavaPreamble()
    ensures Preamble(Java) == JavaImports + JavaClassLine + "\n    "
  {
  }

  const JavaClassName := "Solution"

  /** Every catalog test case has exactly two inputs, so no driver argument
      is "undefined". */
  lemma CatalogHasTwoInputs()
    ensures forall tc :: tc in Problems[AddTwoNumbers].testCases ==> |tc.input| == 2
  {
  }

  /** Literal injection is faithful: an argument literal reads back as the
      input it was written from. */
  lemma ArgDenotesInput(tc: TestCase, i: nat)
    requires i < |tc.input|
    ensures Arg(tc, i) != "undefined"
    ensures PyInt(Arg(tc, i)) == Some(tc.input[i])
  {
    PyIntOfRendering(tc.input[i]);
    var s := Arg(tc, i);
    assert s[0] == '-' || IsDigit(s[0]);
  }
}
