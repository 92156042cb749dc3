/** The interview-question library page (QuestionBank.jsx): the filter
    effect over the fetched list, the relative-time label of a question's
    date with the current time as a parameter, the distinct categories and
    companies offered as filter choices, and the difficulty badge colours. */
module QuestionBank {
  import opened Seqs
  import opened Text

  datatype Question = Question(
    title: string, experience: string, category: string, company: string, difficulty: string)

  /** The four filter inputs; the empty string means "any". */
  datatype Filters = Filters(category: string, company: string, difficulty: string, search: string)

  const NoFilters := Filters("", "", "", "")

  predicate SameCategory(f: Filters, q: Question) { q.category == f.category }

  predicate SameCompany(f: Filters, q: Question) { q.company == f.company }

  predicate SameDifficulty(f: Filters, q: Question) { q.difficulty == f.difficulty }

  /** The search text occurs, ignoring case, in the title or in the
      experience write-up. */
  predicate MatchesSearch(f: Filters, q: Question) {
    Contains(ToLower(q.title), ToLower(f.search)) || Contains(ToLower(q.experience), ToLower(f.search))
  }

  /** The filter effect: each non-empty filter narrows the list once more,
      in the order category, company, difficulty, search. */
  function FilterQuestions(questions: seq<Question>, f: Filters): seq<Question> {
    var byCategory := if f.category != "" then Filter(questions, q => SameCategory(f, q)) else questions;
    var byCompany := if f.company != "" then Filter(byCategory, q => SameCompany(f, q)) else byCategory;
    var byDifficulty := if f.difficulty != "" then Filter(byCompany, q => SameDifficulty(f, q)) else byCompany;
    if f.search != "" then Filter(byDifficulty, q => MatchesSearch(f, q)) else byDifficulty
  }

  /** The single condition a question must meet: every non-empty filter
      matches it. */
  predicate Keep(f: Filters, q: Question) {
    && (f.category == "" || SameCategory(f, q))
    && (f.company == "" || SameCompany(f, q))
    && (f.difficulty == "" || SameDifficulty(f, q))
    && (f.search == "" || MatchesSearch(f, q))
  }

  /** What the list has passed after the first `k` stages. */
  predicate KeptBy(f: Filters, k: nat, q: Question) {
    && (k >= 1 ==> f.category == "" || SameCategory(f, q))
    && (k >= 2 ==> f.company == "" || SameCompany(f, q))
    && (k >= 3 ==> f.difficulty == "" || SameDifficulty(f, q))
    && (k >= 4 ==> f.search == "" || MatchesSearch(f, q))
  }

  /** One more stage of the effect: a switched-off filter leaves the list
      alone, a switched-on one narrows it. */
  lemma NextStage(s: seq<Question>, prev: Question -> bool, next: Question -> bool, on: bool, p: Question -> bool)
    requires forall q :: next(q) == (prev(q) && (!on || p(q)))
    ensures (if on then Filter(Filter(s, prev), p) else Filter(s, prev)) == Filter(s, next)
  {
    if on {
      FilterFilterAs(s, prev, p, next);
    } else {
      FilterSame(s, prev, next);
    }
  }

  /** The four successive filters are one filter by `Keep`. */
  lemma FilterIsKeep(questions: seq<Question>, f: Filters)
    ensures FilterQuestions(questions, f) == Filter(questions, q => Keep(f, q))
  {
    var k0 := q => KeptBy(f, 0, q);
    var k1 := q => KeptBy(f, 1, q);
    var k2 := q => KeptBy(f, 2, q);
    var k3 := q => KeptBy(f, 3, q);
    var k4 := q => KeptBy(f, 4, q);
    FilterAll(questions, k0);
    NextStage(questions, k0, k1, f.category != "", q => SameCategory(f, q));
    NextStage(questions, k1, k2, f.company != "", q => SameCompany(f, q));
    NextStage(questions, k2, k3, f.difficulty != "", q => SameDifficulty(f, q));
    NextStage(questions, k3, k4, f.search != "", q => MatchesSearch(f, q));
    FilterSame(questions, k4, q => Keep(f, q));
  }

  /** The filtered list keeps the original order: it is obtained from the
      full list by deleting questions. */
  lemma FilteredIsSubsequence(questions: seq<Question>, f: Filters)
    ensures IsSubsequence(FilterQuestions(questions, f), questions)
  {
    FilterIsKeep(questions, f);
    FilterIsSubsequence(questions, q => Keep(f, q));
  }

  /** With every filter empty the whole list is shown. */
  lemma EmptyFiltersShowAll(questions: seq<Question>)
    ensures FilterQuestions(questions, NoFilters) == questions
  {
  }

  /** A question is shown exactly when it is in the list and matches every
      non-empty filter. */
  lemma ShownIff(questions: seq<Question>, f: Filters, q: Question)
    ensures q in FilterQuestions(questions, f) <==> q in questions && Keep(f, q)
  {
    FilterIsKeep(questions, f);
    var r := Filter(questions, x => Keep(f, x));
    if q in r {
      var i :| 0 <= i < |r| && r[i] == q;
    }
    if q in questions && Keep(f, q) {
      var i :| 0 <= i < |questions| && questions[i] == q;
    }
  }

  /** `g` refines `f`: it keeps every filter `f` sets and may set more. */
  predicate Refines(g: Filters, f: Filters) {
    && (f.category != "" ==> g.category == f.category)
    && (f.company != "" ==> g.company == f.company)
    && (f.difficulty != "" ==> g.difficulty == f.difficulty)
    && (f.search != "" ==> g.search == f.search)
  }

  /** Setting more filters only removes questions, and what is left keeps
      its order. */
  lemma NarrowingOnlyRemoves(questions: seq<Question>, f: Filters, g: Filters)
    requires Refines(g, f)
    ensures IsSubsequence(FilterQuestions(questions, g), FilterQuestions(questions, f))
  {
    FilterIsKeep(questions, f);
    FilterIsKeep(questions, g);
    FilterStronger(questions, q => Keep(f, q), q => Keep(g, q));
  }

  // ---------------------------------------------------------------------
  // Relative time labels
  // ---------------------------------------------------------------------

  const MinuteMs := 60_000
  const HourMs := 3_600_000
  const DayMs := 86_400_000

  datatype Unit = Minute | Hour | Day | Week

  function UnitMs(u: Unit): nat {
    match u
    case Minute => MinuteMs
    case Hour => HourMs
    case Day => DayMs
    case Week => 7 * DayMs
  }

  function UnitName(u: Unit): string {
    match u
    case Minute => "minute"
    case Hour => "hour"
    case Day => "day"
    case Week => "week"
  }

  /** The label: under a minute, a count of whole units, or (from 30 days
      on) the locale's calendar date, which is not modelled. */
  datatype Age = JustNow | Ago(count: int, unit: Unit) | CalendarDate

  /** The bucket `formatTimeAgo` picks for a difference of `diffMs`
      milliseconds between now and the question's date. `Math.floor` of a
      quotient by a positive divisor is Dafny's `/`. */
  function Classify(diffMs: int): (a: Age)
    ensures a == JustNow <==> diffMs < MinuteMs
    ensures a == CalendarDate <==> diffMs >= 30 * DayMs
    ensures a.Ago? ==> 1 <= a.count && a.count * UnitMs(a.unit) <= diffMs < (a.count + 1) * UnitMs(a.unit)
    ensures a.Ago? ==> (a.unit == Minute <==> diffMs < HourMs)
    ensures a.Ago? ==> (a.unit == Hour <==> HourMs <= diffMs < DayMs)
    ensures a.Ago? ==> (a.unit == Day <==> DayMs <= diffMs < 7 * DayMs)
    ensures a.Ago? ==> (a.unit == Week <==> 7 * DayMs <= diffMs)
  {
    var minutes := diffMs / MinuteMs;
    var hours := diffMs / HourMs;
    var days := diffMs / DayMs;
    if minutes < 1 then JustNow
    else if minutes < 60 then Ago(minutes, Minute)
    else if hours < 24 then Ago(hours, Hour)
    else if days < 7 then Ago(days, Day)
    else if days < 30 then Ago(days / 7, Week)
    else CalendarDate
  }

  /** `formatTimeAgo`; None stands for `toLocaleDateString()`. */
  function FormatTimeAgo(diffMs: int): (r: Option<string>)
    ensures r.None? <==> diffMs >= 30 * DayMs
    ensures diffMs < MinuteMs ==> r == Some("Just now")
  {
    match Classify(diffMs)
    case JustNow => Some("Just now")
    case Ago(n, u) => Some(IntToString(n) + " " + UnitName(u) + (if n > 1 then "s" else "") + " ago")
    case CalendarDate => None
  }

  /** The unit is written in the plural exactly when the count exceeds one,
      and the count is the one `Classify` chose. */
  lemma PluralIffMoreThanOne(diffMs: int)
    requires Classify(diffMs).Ago?
    ensures var a := Classify(diffMs);
            var text := FormatTimeAgo(diffMs).value;
            && |text| >= 5
            && IsPrefix(IntToString(a.count) + " " + UnitName(a.unit), text)
            && (text[|text| - 5..] == "s ago" <==> a.count > 1)
  {
    var a := Classify(diffMs);
    var head := IntToString(a.count) + " " + UnitName(a.unit);
    var tail := (if a.count > 1 then "s" else "") + " ago";
    var text := head + tail;
    assert FormatTimeAgo(diffMs).value == text;
    PrefixOfConcat(head, tail);
    if a.count <= 1 {
      assert text[|text| - 5] == head[|head| - 1];
    }
  }

  lemma OneMinuteSingular()
    ensures FormatTimeAgo(MinuteMs) == Some("1 minute ago")
    ensures FormatTimeAgo(2 * MinuteMs) == Some("2 minutes ago")
    ensures FormatTimeAgo(-5) == Some("Just now")
  {
    assert IntToString(1) == "1" && IntToString(2) == "2";
    assert Classify(MinuteMs) == Ago(1, Minute);
    assert FormatTimeAgo(MinuteMs).value == "1" + " " + "minute" + "" + " ago" == "1 minute ago";
    assert Classify(2 * MinuteMs) == Ago(2, Minute);
    assert FormatTimeAgo(2 * MinuteMs).value == "2" + " " + "minute" + "s" + " ago" == "2 minutes ago";
  }

  // ---------------------------------------------------------------------
  // Filter choices and badges
  // ---------------------------------------------------------------------

  function Categories(questions: seq<Question>): seq<string> {
    seq(|questions|, i requires 0 <= i < |questions| => questions[i].category)
  }

  function Companies(questions: seq<Question>): seq<string> {
    seq(|questions|, i requires 0 <= i < |questions| => questions[i].company)
  }

  /** `[...new Set(questions.map(q => q.category))]`. */
  function UniqueCategories(questions: seq<Question>): (r: seq<string>)
    ensures forall q :: q in questions ==> q.category in r
    ensures forall c :: c in r ==> exists q :: q in questions && q.category == c
    ensures NoDuplicates(r)
  {
    var cs := Categories(questions);
    var r := Distinct(cs);
    assert forall i :: 0 <= i < |questions| ==> cs[i] == questions[i].category;
    r
  }

  /** `[...new Set(questions.map(q => q.company))]`. */
  function UniqueCompanies(questions: seq<Question>): (r: seq<string>)
    ensures forall q :: q in questions ==> q.company in r
    ensures forall c :: c in r ==> exists q :: q in questions && q.company == c
    ensures NoDuplicates(r)
  {
    var cs := Companies(questions);
    var r := Distinct(cs);
    assert forall i :: 0 <= i < |questions| ==> cs[i] == questions[i].company;
    r
  }

  /** The choices appear in the order in which the list first mentions
      them. */
  lemma ChoicesInFirstOccurrenceOrder(questions: seq<Question>)
    ensures forall i, j :: 0 <= i < j < |UniqueCategories(questions)| ==>
      FirstIndex(Categories(questions), UniqueCategories(questions)[i]) <
      FirstIndex(Categories(questions), UniqueCategories(questions)[j])
    ensures forall i, j :: 0 <= i < j < |UniqueCompanies(questions)| ==>
      FirstIndex(Companies(questions), UniqueCompanies(questions)[i]) <
      FirstIndex(Companies(questions), UniqueCompanies(questions)[j])
  {
    DistinctFirstOccurrenceOrder(Categories(questions));
    DistinctFirstOccurrenceOrder(Companies(questions));
  }

  const GrayBadge := "text-gray-600 bg-gray-50"

  predicate KnownDifficulty(d: string) { d == "Easy" || d == "Medium" || d == "Hard" }

  /** `getDifficultyColor`. */
  function DifficultyColor(d: string): (r: string)
    ensures r == GrayBadge <==> !KnownDifficulty(d)
  {
    match d
    case "Easy" => "text-green-600 bg-green-50"
    case "Medium" => "text-yellow-600 bg-yellow-50"
    case "Hard" => "text-red-600 bg-red-50"
    case _ => GrayBadge
  }

  /** Two difficulties share a badge exactly when they are equal or both
      unknown. */
  lemma BadgesDistinguishDifficulties(a: string, b: string)
    ensures DifficultyColor(a) == DifficultyColor(b) <==>
      a == b || (!KnownDifficulty(a) && !KnownDifficulty(b))
  {
  }
}
