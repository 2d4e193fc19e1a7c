/** The results page (src/components/Results/ExamResults.tsx): the latest completed
    attempt, its score, percentage, counts and duration, the per-question breakdown,
    the score bands and messages, and whether a retake is offered. */
module ExamResults {
  import opened Types
  import opened History
  import Numbers
  import ExamContext
  import ExamCard
  import QuestionNavigator

  // ---------------------------------------------------------------------------
  // The attempt shown

  /** `lastAttempt`: the head of the completed attempts sorted by end time, latest
      first; none (the "No Results Found" page) when nothing is completed. */
  function LastCompleted(attempts: seq<ExamAttempt>): (last: Option<ExamAttempt>)
    ensures last.None? <==> forall a :: a in attempts ==> !a.isCompleted
    ensures last.Some? ==> last.value in attempts && last.value.isCompleted
    ensures last.Some? ==> forall a :: a in attempts && a.isCompleted ==> TimeOf(a, EndTime) <= TimeOf(last.value, EndTime)
  {
    var done := Completed(attempts);
    assert done != [] ==> done[0] in done;
    Latest(done, EndTime)
  }

  /** `Math.round(score || 0)`: the figure shown with a '%' sign. It is the raw score
      rounded, a percentage only when the exam's points add up to 100. */
  function Percentage(a: ExamAttempt): (p: int)
    ensures p as real - 0.5 <= ScoreOrZero(a) < p as real + 0.5
    ensures a.score.None? ==> p == 0
  {
    Numbers.Round(ScoreOrZero(a))
  }

  /** `exam?.questions.length || 0`. */
  function TotalQuestions(exam: Option<Exam>): (n: nat)
    ensures exam.None? ==> n == 0
    ensures exam.Some? ==> n == |exam.value.questions|
  {
    if exam.Some? then |exam.value.questions| else 0
  }

  /** `Object.keys(answers).length`: every recorded entry, whatever its value; the
      same figure as the navigator's progress. */
  function AnsweredQuestions(a: ExamAttempt): (n: nat)
    ensures n == QuestionNavigator.ProgressCount(a.answers)
  {
    |a.answers.Keys|
  }

  /** The duration in whole minutes, rounded; 0 without an end time. */
  function DurationMinutes(a: ExamAttempt): (minutes: int)
    ensures a.endTime.None? ==> minutes == 0
    ensures a.endTime.Some? ==>
              minutes as real - 0.5 <= (a.endTime.value - a.startTime) as real / 60000.0 < minutes as real + 0.5
  {
    match a.endTime
    case None => 0
    case Some(end) => Numbers.Round((end - a.startTime) as real / (1000.0 * 60.0))
  }

  // ---------------------------------------------------------------------------
  // Maximum points

  /** `questions.reduce((sum, q) => sum + q.points, 0)`. */
  function MaxPoints(questions: seq<Question>): int
    decreases |questions|
  {
    if questions == [] then 0
    else MaxPoints(questions[..|questions| - 1]) + questions[|questions| - 1].points
  }

  /** The maximum is the multiple-choice points plus the coding points. */
  lemma {:induction false} MaxPointsSplits(questions: seq<Question>)
    ensures MaxPoints(questions) == ExamContext.McqPoints(questions) + ExamContext.CodingPoints(questions)
    decreases |questions|
  {
    if questions != [] {
      MaxPointsSplits(questions[..|questions| - 1]);
    }
  }

  /** With non-negative points no score exceeds the maximum shown beside it. */
  lemma ScoreAtMostMax(questions: seq<Question>, answers: map<string, JsValue>)
    requires ExamContext.NonNegativePoints(questions)
    ensures 0.0 <= ExamContext.Score(questions, answers) <= MaxPoints(questions) as real
  {
    ExamContext.ScoreBounds(questions, answers);
    MaxPointsSplits(questions);
    NonNegativeCodingPoints(questions);
  }

  lemma {:induction false} NonNegativeCodingPoints(questions: seq<Question>)
    requires ExamContext.NonNegativePoints(questions)
    ensures ExamContext.CodingPoints(questions) >= 0
    decreases |questions|
  {
    if questions != [] {
      assert ExamContext.NonNegativePoints(questions[..|questions| - 1]);
      NonNegativeCodingPoints(questions[..|questions| - 1]);
    }
  }

  /** `exam?.questions.reduce(...) || 0`. */
  function MaxShown(exam: Option<Exam>): (m: int)
    ensures exam.None? ==> m == 0
    ensures exam.Some? ==> m == MaxPoints(exam.value.questions)
  {
    if exam.Some? then MaxPoints(exam.value.questions) else 0
  }

  // ---------------------------------------------------------------------------
  // Breakdown

  /** `isCorrect`: strict equality with `correctAnswer` for a multiple-choice question;
      for a coding question, merely being answered. */
  predicate IsCorrect(q: Question, answers: map<string, JsValue>) {
    if q.qtype == Mcq then StrictEqualsOptional(AnswerOf(answers, q.id), q.correctAnswer)
    else QuestionNavigator.IsAnswered(answers, q.id)
  }

  datatype BreakdownIcon = GreenCheck | RedCross | GrayCross

  /** The breakdown icon: a check when correct, a red cross when answered but wrong, a
      gray cross otherwise. */
  function Icon(q: Question, answers: map<string, JsValue>): (icon: BreakdownIcon)
    ensures icon == GreenCheck <==> IsCorrect(q, answers)
    ensures icon == RedCross <==> !IsCorrect(q, answers) && QuestionNavigator.IsAnswered(answers, q.id)
    ensures icon == GrayCross <==> !IsCorrect(q, answers) && !QuestionNavigator.IsAnswered(answers, q.id)
  {
    if IsCorrect(q, answers) then GreenCheck
    else if QuestionNavigator.IsAnswered(answers, q.id) then RedCross
    else GrayCross
  }

  /** For a multiple-choice question worth points, the check mark agrees with the
      score: shown exactly when the question earned its points. */
  lemma McqCheckMatchesCredit(q: Question, answers: map<string, JsValue>)
    requires q.qtype == Mcq && q.points > 0
    ensures IsCorrect(q, answers) <==> ExamContext.Score([q], answers) == q.points as real
  {
    ExamContext.ScoreIsSumOfCredits([q], [], answers);
  }

  /** For a coding question, credit implies the check mark, but not conversely: an
      answer of 0 (or `false`) is checked and earns nothing. */
  lemma CodingCheckIsWeakerThanCredit(q: Question, answers: map<string, JsValue>)
    requires q.qtype == Coding && q.points > 0
    ensures ExamContext.Score([q], answers) > 0.0 ==> IsCorrect(q, answers)
    ensures IsCorrect(q, map[q.id := Num(0)]) && ExamContext.Score([q], map[q.id := Num(0)]) == 0.0
  {
    ExamContext.ScoreIsSumOfCredits([q], [], answers);
    ExamContext.ScoreIsSumOfCredits([q], [], map[q.id := Num(0)]);
  }

  // ---------------------------------------------------------------------------
  // Bands and messages

  datatype Band = High | Middle | Low

  /** `getScoreColor` and `getScoreBgColor` (the dashboard's recent results use the
      same thresholds): at least 80, at least 60, below. */
  function ScoreBand(score: real): (b: Band)
    ensures b == High <==> score >= 80.0
    ensures b == Middle <==> 60.0 <= score < 80.0
    ensures b == Low <==> score < 60.0
  {
    if score >= 80.0 then High
    else if score >= 60.0 then Middle
    else Low
  }

  datatype Performance = Excellent | GreatJob | GoodWork | KeepPracticing | MoreStudyNeeded

  /** `getPerformanceMessage`: thresholds 90, 80, 70 and 60. */
  function PerformanceOf(percentage: int): (p: Performance)
    ensures p == Excellent <==> percentage >= 90
    ensures p == GreatJob <==> 80 <= percentage < 90
    ensures p == GoodWork <==> 70 <= percentage < 80
    ensures p == KeepPracticing <==> 60 <= percentage < 70
    ensures p == MoreStudyNeeded <==> percentage < 60
  {
    if percentage >= 90 then Excellent
    else if percentage >= 80 then GreatJob
    else if percentage >= 70 then GoodWork
    else if percentage >= 60 then KeepPracticing
    else MoreStudyNeeded
  }

  function Rank(p: Performance): nat {
    match p
    case MoreStudyNeeded => 0
    case KeepPracticing => 1
    case GoodWork => 2
    case GreatJob => 3
    case Excellent => 4
  }

  /** A higher percentage never gets a lower message, and the message agrees with the
      colour band: the top two messages are the high band, the bottom one the low. */
  lemma PerformanceMonotone(p1: int, p2: int)
    requires p1 <= p2
    ensures Rank(PerformanceOf(p1)) <= Rank(PerformanceOf(p2))
    ensures Rank(PerformanceOf(p1)) >= 3 <==> ScoreBand(p1 as real) == High
    ensures PerformanceOf(p1) == MoreStudyNeeded <==> ScoreBand(p1 as real) == Low
  {
  }

  // ---------------------------------------------------------------------------
  // Retake

  /** The retake button: an exam was found and it allows more attempts than the user
      has made. */
  predicate RetakeOffered(exam: Option<Exam>, attempts: seq<ExamAttempt>) {
    exam.Some? && exam.value.allowedAttempts > |ForExam(attempts, exam.value.id)|
  }

  /** The retake condition is the dashboard card's `canTakeExam`. */
  lemma RetakeIsCanTake(exam: Exam, attempts: seq<ExamAttempt>)
    ensures RetakeOffered(Some(exam), attempts) <==> ExamCard.CanTakeExam(exam, attempts)
  {
  }

  /** `exams.find(e => e.id === lastAttempt.examId)`: the first catalog exam with the
      last attempt's exam id. */
  function ShownExam(exams: seq<Exam>, attempts: seq<ExamAttempt>): (exam: Option<Exam>)
    ensures LastCompleted(attempts).None? ==> exam.None?
    ensures exam.Some? ==> exam.value in exams && exam.value.id == LastCompleted(attempts).value.examId
    ensures exam.None? <==> LastCompleted(attempts).None?
                            || forall x :: x in exams ==> x.id != LastCompleted(attempts).value.examId
    ensures LastCompleted(attempts).Some? ==> exam == ExamContext.FindExam(exams, LastCompleted(attempts).value.examId)
  {
    match LastCompleted(attempts)
    case None => None
    case Some(last) => ExamContext.FindExam(exams, last.examId)
  }
}
