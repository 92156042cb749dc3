/** The language table of the execution service (`languageConfigs`,
    index.js): container image, source extension, optional compile command
    and run command per language, and the name under which the generated
    source is written into the workspace mounted at /code. */
module Languages {
  import opened Seqs

  datatype Language = C | Cpp | Java | Python

  /** The key of the language in the table, as requests name it. */
  function Key(l: Language): string {
    match l
    case C => "c"
    case Cpp => "cpp"
    case Java => "java"
    case Python => "python"
  }

  /** Table lookup by request key: `None` for every name that is not one of
      the table's own keys. */
  function LanguageOf(key: string): (r: Option<Language>)
    ensures r.Some? ==> Key(r.value) == key
    ensures forall l: Language :: Key(l) == key ==> r == Some(l)
  {
    if key == "c" then Some(C)
    else if key == "cpp" then Some(Cpp)
    else if key == "java" then Some(Java)
    else if key == "python" then Some(Python)
    else None
  }

  datatype LanguageConfig = LanguageConfig(
    image: string,
    extension: string,
    compile: Option<seq<string>>,
    run: seq<string>)

  /** A language table; the pipeline is stated for any table. */
  type ConfigTable = Language -> LanguageConfig

  /** The table as written. */
  function Config(l: Language): (c: LanguageConfig)
    ensures c.compile.None? <==> l == Python
  {
    match l
    case C => LanguageConfig("gcc:latest", ".c",
      Some(["gcc", "-o", "/code/temp", "/code/temp.c"]), ["/code/temp"])
    case Cpp => LanguageConfig("gcc:latest", ".cpp",
      Some(["g++", "-o", "/code/temp", "/code/temp.cpp"]), ["/code/temp"])
    case Java => LanguageConfig("openjdk:11", ".java",
      Some(["javac", "/code/Solution.java"]), ["java", "-cp", "/code", "Solution"])
    case Python => LanguageConfig("python:3.9-slim", ".py",
      None, ["python", "/code/solution.py"])
  }

  /** Where the workspace is mounted inside the container. */
  const MountPath := "/code/"

  /** The name the generated source is written under: the fixed Java class
      file name, or `solution` plus the table's extension. */
  function SourceFileName(l: Language, config: LanguageConfig): string {
    if l == Java then "Solution.java" else "solution" + config.extension
  }

  /** The command of the first toolchain step: compile if there is one, else run. */
  function FirstStep(config: LanguageConfig): seq<string> {
    if config.compile.Some? then config.compile.value else config.run
  }

  /** The first toolchain step names, as its last argument, the file the
      workspace actually holds. */
  predicate ReadsWrittenFile(l: Language, config: LanguageConfig) {
    var step := FirstStep(config);
    |step| > 0 && step[|step| - 1] == MountPath + SourceFileName(l, config)
  }

  /** As written, the invariant holds for Java and Python only: the C and C++
      compile commands name `temp.c`/`temp.cpp` while the file written is
      `solution.c`/`solution.cpp`. */
  lemma AsWrittenReadsWrittenFile(l: Language)
    ensures ReadsWrittenFile(l, Config(l)) <==> (l == Java || l == Python)
    ensures l == C ==> FirstStep(Config(l))[3] == "/code/temp.c" && SourceFileName(l, Config(l)) == "solution.c"
    ensures l == Cpp ==> FirstStep(Config(l))[3] == "/code/temp.cpp" && SourceFileName(l, Config(l)) == "solution.cpp"
  {
    match l
    case C => TempMismatch(C, "/code/temp.c", "solution.c");
    case Cpp => TempMismatch(Cpp, "/code/temp.cpp", "solution.cpp");
    case _ => CorrectedReadsWrittenFile(l);
  }

  /** The compiler is pointed at `temp` where the workspace holds `solution`. */
  lemma TempMismatch(l: Language, named: string, written: string)
    requires l == C || l == Cpp
    requires named == if l == C then "/code/temp.c" else "/code/temp.cpp"
    requires written == if l == C then "solution.c" else "solution.cpp"
    ensures FirstStep(Config(l))[3] == named && SourceFileName(l, Config(l)) == written
    ensures !ReadsWrittenFile(l, Config(l))
  {
    var step := FirstStep(Config(l));
    assert step[|step| - 1][6] == 't';
    assert (MountPath + SourceFileName(l, Config(l)))[6] == 's';
  }

  /** The table with the C and C++ compile commands naming the written file. */
  function CorrectedConfig(l: Language): (c: LanguageConfig)
    ensures c.image == Config(l).image && c.extension == Config(l).extension
    ensures c.run == Config(l).run && c.compile.Some? == Config(l).compile.Some?
    ensures l == Java || l == Python ==> c == Config(l)
  {
    match l
    case C => Config(l).(compile := Some(["gcc", "-o", "/code/temp", "/code/solution.c"]))
    case Cpp => Config(l).(compile := Some(["g++", "-o", "/code/temp", "/code/solution.cpp"]))
    case _ => Config(l)
  }

  lemma CorrectedReadsWrittenFile(l: Language)
    ensures ReadsWrittenFile(l, CorrectedConfig(l))
  {
    match l
    case C => CorrectedC();
    case Cpp => CorrectedCpp();
    case Java => UnchangedJava();
    case Python => UnchangedPython();
  }

  lemma CorrectedC()
    ensures ReadsWrittenFile(C, CorrectedConfig(C))
  {
    assert SourceFileName(C, CorrectedConfig(C)) == "solution.c";
  }

  lemma CorrectedCpp()
    ensures ReadsWrittenFile(Cpp, CorrectedConfig(Cpp))
  {
    assert SourceFileName(Cpp, CorrectedConfig(Cpp)) == "solution.cpp";
  }

  lemma UnchangedJava()
    ensures ReadsWrittenFile(Java, CorrectedConfig(Java))
  {
    assert FirstStep(CorrectedConfig(Java)) == ["javac", "/code/Solution.java"];
  }

  lemma UnchangedPython()
    ensures ReadsWrittenFile(Python, CorrectedConfig(Python))
  {
    assert SourceFileName(Python, CorrectedConfig(Python)) == "solution.py";
  }
}
