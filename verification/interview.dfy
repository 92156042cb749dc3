/** The interview service (interview.py): the fixed linear phase table, the
    question counter, the state update of `submit_response`, resume upload
    acceptance and dispatch, the history formatter and session expiry. The
    language model, text-to-speech and the text extractors are parameters. */
module Interview {
  import opened Seqs
  import opened Text

  datatype Phase = SelfIntro | Skills | Projects | Experience

  /** The `next_phase` entry: another phase, or 'complete'. */
  datatype Successor = Then(phase: Phase) | Complete

  datatype PhaseInfo = PhaseInfo(name: string, questionsCount: nat, next: Successor)

  /** `INTERVIEW_PHASES`. */
  function Info(p: Phase): PhaseInfo {
    match p
    case SelfIntro => PhaseInfo("Getting to Know You", 2, Then(Skills))
    case Skills => PhaseInfo("Skills Exploration", 3, Then(Projects))
    case Projects => PhaseInfo("Project Highlights", 3, Then(Experience))
    case Experience => PhaseInfo("Experience Review", 2, Complete)
  }

  function Key(p: Phase): string {
    match p
    case SelfIntro => "self_intro"
    case Skills => "skills"
    case Projects => "projects"
    case Experience => "experience"
  }

  /** `list(INTERVIEW_PHASES.keys())`: dictionary insertion order. */
  const PhaseOrder: seq<Phase> := [SelfIntro, Skills, Projects, Experience]

  /** `phase_order.index(p)`. */
  function Index(p: Phase): (i: nat)
    ensures i < |PhaseOrder| && PhaseOrder[i] == p
  {
    match p
    case SelfIntro => 0
    case Skills => 1
    case Projects => 2
    case Experience => 3
  }

  /** The table is one chain: each phase's successor is the next phase in
      the order, and only the last one completes. */
  lemma PhasesFormAChain(p: Phase)
    ensures Index(p) + 1 < |PhaseOrder| ==> Info(p).next == Then(PhaseOrder[Index(p) + 1])
    ensures Index(p) + 1 == |PhaseOrder| <==> Info(p).next == Complete
  {
  }

  function SumCounts(ps: seq<Phase>): nat {
    if ps == [] then 0 else Info(ps[0]).questionsCount + SumCounts(ps[1..])
  }

  /** `calculate_total_questions`. */
  function TotalQuestions(): nat {
    SumCounts(PhaseOrder)
  }

  lemma TotalQuestionsIsTen()
    ensures TotalQuestions() == 10
  {
  }

  /** `get_current_question_number`: one more than the questions of all
      earlier phases plus the answers counted in the current one. */
  function QuestionNumber(p: Phase, count: nat): nat {
    1 + SumCounts(PhaseOrder[..Index(p)]) + count
  }

  /** The interview position after one more accepted answer. */
  datatype Step = Step(phase: Phase, count: nat, complete: bool)

  /** The phase transition of `submit_response`: count the answer; when the
      phase's quota is reached, move to the next phase with a fresh count,
      or, after the last phase, report completion and stay. */
  function Advance(p: Phase, count: nat): (s: Step)
    ensures s.complete <==> count + 1 >= Info(p).questionsCount && Info(p).next == Complete
    ensures s.complete ==> s.phase == p && s.count == count + 1
    ensures !s.complete && count + 1 < Info(p).questionsCount ==> s.phase == p && s.count == count + 1
    ensures !s.complete && count + 1 >= Info(p).questionsCount ==> Info(p).next == Then(s.phase) && s.count == 0
  {
    var counted := count + 1;
    if counted >= Info(p).questionsCount then
      match Info(p).next
      case Complete => Step(p, counted, true)
      case Then(q) => Step(q, 0, false)
    else Step(p, counted, false)
  }

  /** The position of a new session after `k` accepted answers. */
  function After(k: nat): Step {
    if k == 0 then Step(SelfIntro, 0, false)
    else
      var prev := After(k - 1);
      Advance(prev.phase, prev.count)
  }

  /** Closed form of `After`: the phase holding the (k+1)-th question, and
      the answers given in it. */
  function Expected(k: nat): (Phase, nat) {
    if k < 2 then (SelfIntro, k)
    else if k < 5 then (Skills, k - 2)
    else if k < 8 then (Projects, k - 5)
    else (Experience, k - 8)
  }

  /** Counting invariant: after the k-th accepted answer the reported
      question number is k + 1, and the interview is complete exactly from
      the tenth answer on. */
  lemma CountingInvariant(k: nat)
    ensures (After(k).phase, After(k).count) == Expected(k)
    ensures QuestionNumber(After(k).phase, After(k).count) == k + 1
    ensures After(k).complete <==> k >= TotalQuestions()
  {
    AfterIsExpected(k);
    ExpectedNumber(k);
    TotalQuestionsIsTen();
  }

  lemma {:induction false} AfterIsExpected(k: nat)
    ensures After(k) == Step(Expected(k).0, Expected(k).1, k >= 10)
  {
    if k > 0 {
      AfterIsExpected(k - 1);
      ExpectedStep(k - 1);
    }
  }

  /** One accepted answer moves the closed form one step. */
  lemma ExpectedStep(k: nat)
    ensures Advance(Expected(k).0, Expected(k).1) == Step(Expected(k + 1).0, Expected(k + 1).1, k + 1 >= 10)
  {
  }

  lemma ExpectedNumber(k: nat)
    ensures QuestionNumber(Expected(k).0, Expected(k).1) == k + 1
  {
    QuestionsBefore();
  }

  /** The questions asked in the phases before each phase. */
  lemma QuestionsBefore()
    ensures SumCounts(PhaseOrder[..Index(SelfIntro)]) == 0
    ensures SumCounts(PhaseOrder[..Index(Skills)]) == 2
    ensures SumCounts(PhaseOrder[..Index(Projects)]) == 5
    ensures SumCounts(PhaseOrder[..Index(Experience)]) == 8
  {
    assert PhaseOrder[..0] == [];
    assert PhaseOrder[..1] == [SelfIntro];
    assert PhaseOrder[..2] == [SelfIntro, Skills];
    assert PhaseOrder[..3] == [SelfIntro, Skills, Projects];
    assert [SelfIntro, Skills, Projects][1..] == [Skills, Projects];
    assert [Skills, Projects][1..] == [Projects];
    assert [SelfIntro, Skills][1..] == [Skills];
    assert SumCounts([Projects]) == 3;
    assert SumCounts([Skills]) == 3;
    assert SumCounts([Skills, Projects]) == 6;
  }

  datatype Message = Hr(message: string) | Candidate(message: string, score: int, feedback: string)

  /** The state of one interview; the regex-scraped skill, project and
      experience lists are not part of it here. */
  datatype Session = Session(
    resumeText: string,
    currentPhase: Phase,
    phaseQuestionCount: nat,
    conversation: seq<Message>,
    lastQuestion: string,
    createdAt: int)

  /** The answer of the evaluator for (response, question). */
  datatype Evaluation = Evaluation(score: int, feedback: string)

  type Evaluator = (string, string) -> Evaluation

  /** The question generator, given the session as updated so far and the
      candidate's last answer. */
  type Asker = (Session, string) -> string

  const ClosingMessage := "Thank you for your time today! That concludes our interview. We'll review everything and be in touch soon. Have a great day!"
  const InvalidSession := "Invalid session"
  const EmptyResponse := "Empty response"

  datatype Reply =
    | Rejected(error: string)
    | Answered(hrResponse: string, complete: bool, phase: string, questionNumber: nat,
               totalQuestions: nat, score: int, feedback: string)

  datatype Outcome = Outcome(reply: Reply, sessions: map<string, Session>)

  /** A session id that names a live session (`not session_id` fails on
      None and on ""). */
  predicate Known(sessions: map<string, Session>, sessionId: Option<string>) {
    sessionId.Some? && sessionId.value != "" && sessionId.value in sessions
  }

  /** What an accepted answer does: only session `id` changes; the stripped
      answer is recorded with its evaluation, the counters advance, and the
      reply's next question (or the closing text) is recorded as asked unless
      the interview is complete; that question is the one `ask` generates
      from the session as updated so far. */
  predicate Recorded(sessions: map<string, Session>, id: string, answer: string, evaluate: Evaluator,
                     ask: Asker, out: Outcome)
    requires id in sessions
  {
    var s := sessions[id];
    var ev := evaluate(answer, s.lastQuestion);
    var step := Advance(s.currentPhase, s.phaseQuestionCount);
    && out.reply.Answered?
    && out.sessions.Keys == sessions.Keys
    && (forall k :: k in sessions && k != id ==> out.sessions[k] == sessions[k])
    && var s' := out.sessions[id];
    && s'.currentPhase == step.phase && s'.phaseQuestionCount == step.count
    && out.reply.complete == step.complete
    && s'.conversation == s.conversation + [Candidate(answer, ev.score, ev.feedback)]
                          + (if step.complete then [] else [Hr(out.reply.hrResponse)])
    && s'.lastQuestion == (if step.complete then s.lastQuestion else out.reply.hrResponse)
    && (step.complete ==> out.reply.hrResponse == ClosingMessage)
    && (!step.complete ==>
          out.reply.hrResponse == ask(s.(conversation := s.conversation + [Candidate(answer, ev.score, ev.feedback)],
                                         currentPhase := step.phase, phaseQuestionCount := step.count), answer))
    && s'.resumeText == s.resumeText && s'.createdAt == s.createdAt
    && out.reply.phase == Key(s'.currentPhase)
    && out.reply.questionNumber == QuestionNumber(s'.currentPhase, s'.phaseQuestionCount)
    && out.reply.totalQuestions == TotalQuestions()
    && out.reply.score == ev.score && out.reply.feedback == ev.feedback
  }

  /** `submit_response`; `response` is "" when the field is absent. */
  function SubmitResponse(sessions: map<string, Session>, sessionId: Option<string>, response: string,
                          evaluate: Evaluator, ask: Asker): (out: Outcome)
    ensures out.reply.Rejected? <==> !Known(sessions, sessionId) || Trim(response, IsPySpace) == ""
    ensures !Known(sessions, sessionId) ==> out == Outcome(Rejected(InvalidSession), sessions)
    ensures Known(sessions, sessionId) && Trim(response, IsPySpace) == "" ==>
      out == Outcome(Rejected(EmptyResponse), sessions)
    ensures out.reply.Answered? ==>
      Known(sessions, sessionId) && Recorded(sessions, sessionId.value, Trim(response, IsPySpace), evaluate, ask, out)
  {
    if !Known(sessions, sessionId) then Outcome(Rejected(InvalidSession), sessions)
    else
      var answer := Trim(response, IsPySpace);
      if answer == "" then Outcome(Rejected(EmptyResponse), sessions)
      else Answer(sessions, sessionId.value, answer, evaluate, ask)
  }

  /** The state update for a non-empty answer to a live session. */
  function Answer(sessions: map<string, Session>, id: string, answer: string, evaluate: Evaluator,
                  ask: Asker): (out: Outcome)
    requires id in sessions
    ensures Recorded(sessions, id, answer, evaluate, ask, out)
  {
    var s := sessions[id];
    var ev := evaluate(answer, s.lastQuestion);
    var step := Advance(s.currentPhase, s.phaseQuestionCount);
    var counted := s.(conversation := s.conversation + [Candidate(answer, ev.score, ev.feedback)],
                      currentPhase := step.phase, phaseQuestionCount := step.count);
    var hr := if step.complete then ClosingMessage else ask(counted, answer);
    var s' := if step.complete then counted
              else counted.(lastQuestion := hr, conversation := counted.conversation + [Hr(hr)]);
    Outcome(Answered(hr, step.complete, Key(s'.currentPhase),
                     QuestionNumber(s'.currentPhase, s'.phaseQuestionCount),
                     TotalQuestions(), ev.score, ev.feedback),
            sessions[id := s'])
  }

  /** Each accepted answer moves a session one question further: the
      reported number is one more than the session's own number before. */
  lemma AnswerAdvancesQuestionNumber(sessions: map<string, Session>, sessionId: Option<string>,
                                     response: string, evaluate: Evaluator, ask: Asker, k: nat)
    requires Known(sessions, sessionId)
    requires var s := sessions[sessionId.value];
      (s.currentPhase, s.phaseQuestionCount) == (After(k).phase, After(k).count)
    ensures var out := SubmitResponse(sessions, sessionId, response, evaluate, ask);
      out.reply.Answered? ==>
        && out.reply.questionNumber == k + 2
        && (out.reply.complete <==> k + 1 >= TotalQuestions())
  {
    CountingInvariant(k + 1);
  }

  /** The lines of the prompt's conversation history. */
  function Line(m: Message): string {
    match m
    case Hr(text) => "Sarah (HR): " + text + "\n"
    case Candidate(text, _, _) => "Candidate: " + text + "\n"
  }

  /** `format_conversation_history`. Together with `FormatAppend`, the two
      one-message clauses fix every line of the history. */
  function FormatConversationHistory(conversation: seq<Message>): (h: string)
    ensures conversation == [] ==> h == ""
    ensures conversation != [] ==> |h| > 0 && h[|h| - 1] == '\n'
    ensures |conversation| == 1 && conversation[0].Hr? ==> h == "Sarah (HR): " + conversation[0].message + "\n"
    ensures |conversation| == 1 && conversation[0].Candidate? ==> h == "Candidate: " + conversation[0].message + "\n"
    decreases |conversation|
  {
    if conversation == [] then ""
    else
      var init := conversation[..|conversation| - 1];
      var last := Line(conversation[|conversation| - 1]);
      FormatConversationHistory(init) + last
  }

  /** Formatting distributes over appending messages: the history of a longer
      conversation extends the history of a shorter one. */
  lemma {:induction false} FormatAppend(a: seq<Message>, b: seq<Message>)
    ensures FormatConversationHistory(a + b) == FormatConversationHistory(a) + FormatConversationHistory(b)
    decreases |b|
  {
    if b == [] {
      assert a + b == a;
    } else {
      var init := b[..|b| - 1];
      assert (a + b)[..|a + b| - 1] == a + init;
      assert (a + b)[|a + b| - 1] == b[|b| - 1];
      FormatAppend(a, init);
      ConcatAssoc(FormatConversationHistory(a), FormatConversationHistory(init), Line(b[|b| - 1]));
    }
  }

  /** `ALLOWED_EXTENSIONS`. */
  predicate AllowedExtension(ext: string) {
    ext == "txt" || ext == "pdf" || ext == "doc" || ext == "docx"
  }

  /** `allowed_file`. Python's `lower` is Unicode-aware, but no non-ASCII
      character lowers to one of the ASCII letters of the four extensions, so
      ASCII folding decides the same membership. */
  predicate AllowedFile(filename: string) {
    '.' in filename && AllowedExtension(ToLower(AfterLast(filename, '.')))
  }

  /** The name is accepted exactly when it splits as stem, dot, and an
      extension without dots that folds to one of the four. */
  lemma AllowedFileIff(filename: string)
    ensures AllowedFile(filename) <==>
      exists stem, ext :: filename == stem + "." + ext && '.' !in ext && AllowedExtension(ToLower(ext))
  {
    if AllowedFile(filename) {
      var stem, ext := AllowedFileSplits(filename);
    }
    if exists stem, ext :: filename == stem + "." + ext && '.' !in ext && AllowedExtension(ToLower(ext)) {
      var stem, ext :| filename == stem + "." + ext && '.' !in ext && AllowedExtension(ToLower(ext));
      SplitIsAllowed(filename, stem, ext);
    }
  }

  /** The split `allowed_file` makes: around the last dot. */
  lemma AllowedFileSplits(filename: string) returns (stem: string, ext: string)
    requires AllowedFile(filename)
    ensures filename == stem + "." + ext && '.' !in ext && AllowedExtension(ToLower(ext))
  {
    ext := AfterLast(filename, '.');
    AfterLastFacts(filename, '.');
    stem := filename[..|filename| - |ext| - 1];
    assert filename == stem + ['.'] + ext;
  }

  lemma SplitIsAllowed(filename: string, stem: string, ext: string)
    requires filename == stem + "." + ext && '.' !in ext && AllowedExtension(ToLower(ext))
    ensures AllowedFile(filename)
  {
    assert filename == stem + ['.'] + ext;
    AfterLastSplit(stem, '.', ext);
  }

  datatype Extractor = PdfText | DocxText | PlainText

  /** The dispatch of `extract_resume_text` on the folded extension; "doc"
      passes `allowed_file` but has no extractor. */
  function ExtractorFor(ext: string): (r: Option<Extractor>)
    ensures r == Some(PdfText) <==> ext == "pdf"
    ensures r == Some(DocxText) <==> ext == "docx"
    ensures r == Some(PlainText) <==> ext == "txt"
    ensures r.Some? ==> AllowedExtension(ext)
    ensures r.None? && AllowedExtension(ext) <==> ext == "doc"
  {
    if ext == "pdf" then Some(PdfText)
    else if ext == "docx" then Some(DocxText)
    else if ext == "txt" then Some(PlainText)
    else None
  }

  /** The message of the `IndexError` that `rsplit('.', 1)[1]` raises on a
      name without a dot. */
  const NoExtension := "list index out of range"

  /** An uploaded file: its client-side name and its bytes, kept abstract. */
  datatype Upload = Upload(filename: string, content: seq<int>)

  /** The text extractors (their failures already yield ""). */
  type ExtractorRun = (Extractor, Upload) -> string

  /** `extract_resume_text`: the text, or the message of the exception raised
      when the name has no dot. */
  function ExtractResumeText(name: string, upload: Upload, extract: ExtractorRun): (r: Result<string>)
    ensures r.Err? <==> '.' !in name
    ensures r.Err? ==> r.message == NoExtension
    ensures r.Ok? && ExtractorFor(ToLower(AfterLast(name, '.'))).None? ==> r.value == ""
    ensures r.Ok? && ExtractorFor(ToLower(AfterLast(name, '.'))).Some? ==>
      r.value == extract(ExtractorFor(ToLower(AfterLast(name, '.'))).value, upload)
  {
    if '.' !in name then Err(NoExtension)
    else
      match ExtractorFor(ToLower(AfterLast(name, '.')))
      case None => Ok("")
      case Some(x) => Ok(extract(x, upload))
  }

  /** The two opening questions `generate_initial_question` chooses between;
      `pick` stands for the random choice. */
  function OpeningQuestion(pick: bool): string {
    if pick then WarmOpening else SarahOpening
  }

  const SarahOpening := "Hi! I'm Sarah, and I'm excited to learn more about you today. To start, could you please tell me about yourself and what led you to apply for this role?"
  const WarmOpening := "Hello, it's great to meet you. To get us started, could you walk me through your background and what you're passionate about in your field?"

  const NoResumeText := "Could not extract text from resume"
  const UploadFailed := "Server error during upload: "

  datatype UploadReply =
    | UploadRejected(status: nat, error: string)
    | Started(sessionId: string, initialQuestion: string, phase: string, questionNumber: nat, totalQuestions: nat)

  datatype UploadOutcome = UploadOutcome(reply: UploadReply, sessions: map<string, Session>)

  /** A new session at the first question, with the opening question that
      `generate_initial_question` chose already in the conversation. */
  function NewSession(text: string, opening: string, now: int): (s: Session)
    ensures s.currentPhase == SelfIntro && s.phaseQuestionCount == 0
    ensures s.conversation == [Hr(s.lastQuestion)] && s.lastQuestion == opening
    ensures s.resumeText == text && s.createdAt == now
    ensures QuestionNumber(s.currentPhase, s.phaseQuestionCount) == 1
  {
    QuestionsBefore();
    Session(text, SelfIntro, 0, [Hr(opening)], opening, now)
  }

  /** What a started interview does: exactly one session is added, at the
      first question, holding the resume text `text` (non-blank), with its
      opening question asked; the reply names the new session and its
      phase. */
  predicate Opened(sessions: map<string, Session>, sessionId: string, text: string, opening: string, now: int,
                   out: UploadOutcome)
  {
    && out.reply.Started?
    && out.reply.sessionId == sessionId && out.reply.phase == Key(SelfIntro)
    && out.sessions.Keys == sessions.Keys + {sessionId}
    && (forall k :: k in sessions && k != sessionId ==> out.sessions[k] == sessions[k])
    && var s := out.sessions[sessionId];
    && s.currentPhase == SelfIntro && s.phaseQuestionCount == 0
    && s.conversation == [Hr(out.reply.initialQuestion)] && s.lastQuestion == out.reply.initialQuestion
    && out.reply.initialQuestion == opening && s.createdAt == now
    && s.resumeText == text && Trim(text, IsPySpace) != ""
    && out.reply.questionNumber == 1 == QuestionNumber(s.currentPhase, s.phaseQuestionCount)
    && out.reply.totalQuestions == TotalQuestions()
  }

  /** `upload_resume`. `secure` stands for `secure_filename`; `sessionId`,
      `pick` (the random choice of opening question) and `now` are what the
      clock and the random generator would supply. */
  function UploadResume(sessions: map<string, Session>, file: Option<Upload>, secure: string -> string,
                        extract: ExtractorRun, sessionId: string, pick: bool, now: int): (out: UploadOutcome)
    ensures file.None? ==> out == UploadOutcome(UploadRejected(400, "No file part"), sessions)
    ensures file.Some? && !AllowedFile(file.value.filename) ==>
      out == UploadOutcome(UploadRejected(400, "Invalid file"), sessions)
    ensures out.reply.UploadRejected? ==> out.sessions == sessions
    ensures out.reply.Started? <==>
      && file.Some? && AllowedFile(file.value.filename)
      && var text := ExtractResumeText(secure(file.value.filename), file.value, extract);
      && text.Ok? && Trim(text.value, IsPySpace) != ""
    ensures out.reply.Started? ==>
      && file.Some? && AllowedFile(file.value.filename)
      && var text := ExtractResumeText(secure(file.value.filename), file.value, extract);
      && text.Ok? && Opened(sessions, sessionId, text.value, OpeningQuestion(pick), now, out)
    ensures file.Some? && AllowedFile(file.value.filename) ==>
      var text := ExtractResumeText(secure(file.value.filename), file.value, extract);
      && (text.Err? ==> out.reply == UploadRejected(500, UploadFailed + text.message))
      && (text.Ok? && Trim(text.value, IsPySpace) == "" ==> out.reply == UploadRejected(400, NoResumeText))
  {
    if file.None? then UploadOutcome(UploadRejected(400, "No file part"), sessions)
    else if file.value.filename == "" || !AllowedFile(file.value.filename) then
      UploadOutcome(UploadRejected(400, "Invalid file"), sessions)
    else
      Ingest(sessions, file.value, secure(file.value.filename), extract, sessionId, OpeningQuestion(pick), now)
  }

  /** The part of `upload_resume` after the name check: extract the text
      under the sanitised name and open a session when there is any. */
  function Ingest(sessions: map<string, Session>, upload: Upload, name: string, extract: ExtractorRun,
                  sessionId: string, opening: string, now: int): (out: UploadOutcome)
    ensures out.reply.UploadRejected? ==> out.sessions == sessions
    ensures var text := ExtractResumeText(name, upload, extract);
      text.Err? ==> out == UploadOutcome(UploadRejected(500, UploadFailed + text.message), sessions)
    ensures var text := ExtractResumeText(name, upload, extract);
      out.reply == UploadRejected(400, NoResumeText) <==> text.Ok? && Trim(text.value, IsPySpace) == ""
    ensures var text := ExtractResumeText(name, upload, extract);
      out.reply.Started? <==> text.Ok? && Trim(text.value, IsPySpace) != ""
    ensures var text := ExtractResumeText(name, upload, extract);
      out.reply.Started? ==> text.Ok? && Opened(sessions, sessionId, text.value, opening, now, out)
  {
    match ExtractResumeText(name, upload, extract)
    case Err(e) => UploadOutcome(UploadRejected(500, UploadFailed + e), sessions)
    case Ok(text) =>
      if Trim(text, IsPySpace) == "" then
        UploadOutcome(UploadRejected(400, NoResumeText), sessions)
      else Open(sessions, sessionId, text, opening, now)
  }

  function Open(sessions: map<string, Session>, sessionId: string, text: string, opening: string, now: int)
    : (out: UploadOutcome)
    requires Trim(text, IsPySpace) != ""
    ensures Opened(sessions, sessionId, text, opening, now, out)
  {
    var s := NewSession(text, opening, now);
    var out := UploadOutcome(Started(sessionId, s.lastQuestion, Key(SelfIntro), 1, TotalQuestions()),
                             sessions[sessionId := s]);
    OpenedWith(sessions, sessionId, text, opening, now, s, out);
    out
  }

  lemma OpenedWith(sessions: map<string, Session>, sessionId: string, text: string, opening: string, now: int,
                   s: Session, out: UploadOutcome)
    requires s.currentPhase == SelfIntro && s.phaseQuestionCount == 0
    requires s.conversation == [Hr(s.lastQuestion)] && s.lastQuestion == opening
    requires s.createdAt == now && s.resumeText == text && Trim(text, IsPySpace) != ""
    requires QuestionNumber(s.currentPhase, s.phaseQuestionCount) == 1
    requires out.reply == Started(sessionId, s.lastQuestion, Key(SelfIntro), 1, TotalQuestions())
    requires out.sessions == sessions[sessionId := s]
    ensures Opened(sessions, sessionId, text, opening, now, out)
  {
    assert out.sessions[sessionId] == s;
    assert out.sessions.Keys == sessions.Keys + {sessionId};
  }

  /** A ".doc" resume passes the name check and is then refused for having
      no extractable text. */
  lemma DocResumeRefused(sessions: map<string, Session>, upload: Upload, extract: ExtractorRun,
                         sessionId: string, pick: bool, now: int, stem: string)
    requires upload.filename == stem + ".doc"
    ensures AllowedFile(upload.filename)
    ensures UploadResume(sessions, Some(upload), s => s, extract, sessionId, pick, now)
         == UploadOutcome(UploadRejected(400, NoResumeText), sessions)
  {
    DocHasNoExtractor(stem, upload, extract);
  }

  lemma DocHasNoExtractor(stem: string, upload: Upload, extract: ExtractorRun)
    ensures AllowedFile(stem + ".doc")
    ensures ExtractResumeText(stem + ".doc", upload, extract) == Ok("")
  {
    AfterLastSplit(stem, '.', "doc");
    assert stem + ".doc" == stem + ['.'] + "doc";
    assert ToLower("doc") == "doc";
  }

  /** Two hours in microseconds, the resolution of Python's `datetime`. */
  const TwoHours: int := 2 * 60 * 60 * 1_000_000

  predicate Expired(s: Session, now: int) {
    now - s.createdAt > TwoHours
  }

  /** The session half of `cleanup_old_files_and_sessions`: deletes, one key
      at a time, every session older than two hours. */
  method Cleanup(sessions: map<string, Session>, now: int) returns (live: map<string, Session>)
    ensures forall k :: k in live <==> k in sessions && !Expired(sessions[k], now)
    ensures forall k :: k in live ==> live[k] == sessions[k]
  {
    live := sessions;
    var pending := sessions.Keys;
    while pending != {}
      invariant pending <= sessions.Keys
      invariant forall k :: k in live ==> k in sessions && live[k] == sessions[k]
      invariant forall k :: k in sessions && k !in pending ==> (k in live <==> !Expired(sessions[k], now))
      invariant forall k :: k in pending ==> k in live
      decreases pending
    {
      var k :| k in pending;
      if Expired(sessions[k], now) {
        live := live - {k};
      }
      pending := pending - {k};
    }
  }

  /** A session exactly two hours old survives; one microsecond more and it
      is removed. */
  lemma ExpiryBoundary(s: Session)
    ensures !Expired(s, s.createdAt + TwoHours)
    ensures Expired(s, s.createdAt + TwoHours + 1)
  {
  }
}
