/** The dashboard's recent results (src/components/Dashboard/RecentResults.tsx): the
    five latest completed attempts, their exam titles and their colour and trend
    icon. */
module RecentResults {
  import opened Types
  import opened History
  import ExamContext
  import ExamResults

  function Min(a: int, b: int): int {
    if a < b then a else b
  }

  /** `recentAttempts`: the completed attempts, latest end time first, at most five;
      they are the first entries of that order, so no completed attempt left out ended
      later than one shown. */
  function Recent(attempts: seq<ExamAttempt>): (recent: seq<ExamAttempt>)
    ensures |recent| == Min(5, |Completed(attempts)|)
    ensures recent == SortDescending(Completed(attempts), EndTime)[..|recent|]
    ensures forall i :: 0 <= i < |recent| ==> recent[i].isCompleted && recent[i] in attempts
    ensures Descending(recent, EndTime)
  {
    var sorted := SortDescending(Completed(attempts), EndTime);
    var recent := sorted[..Min(5, |sorted|)];
    forall i | 0 <= i < |recent| ensures recent[i].isCompleted && recent[i] in attempts {
      assert recent[i] == sorted[i];
      assert sorted[i] in multiset(sorted);
    }
    recent
  }

  /** An attempt left out of the list ended no later than every attempt shown. */
  lemma ShownAreLatest(attempts: seq<ExamAttempt>, i: nat, j: nat)
    requires i < |Recent(attempts)| <= j < |Completed(attempts)|
    ensures TimeOf(SortDescending(Completed(attempts), EndTime)[j], EndTime) <= TimeOf(Recent(attempts)[i], EndTime)
  {
    var sorted := SortDescending(Completed(attempts), EndTime);
    assert Recent(attempts)[i] == sorted[i];
  }

  /** The list is empty (and the placeholder shown) exactly when nothing is completed. */
  predicate ShowPlaceholder(attempts: seq<ExamAttempt>)
    ensures ShowPlaceholder(attempts) <==> forall a :: a in attempts ==> !a.isCompleted
  {
    assert Completed(attempts) != [] ==> Completed(attempts)[0] in Completed(attempts);
    |Recent(attempts)| == 0
  }

  /** The first entry is the attempt the results page shows. */
  lemma FirstIsResultsPageAttempt(attempts: seq<ExamAttempt>)
    requires |Recent(attempts)| > 0
    ensures ExamResults.LastCompleted(attempts) == Some(Recent(attempts)[0])
  {
  }

  /** `getExamTitle`: the catalog title when the exam is found and its title is
      non-empty, otherwise "Unknown Exam". */
  function ExamTitle(exams: seq<Exam>, examId: string): (title: string)
    ensures title != ""
    ensures ExamContext.FindExam(exams, examId).Some? && ExamContext.FindExam(exams, examId).value.title != "" ==>
              title == ExamContext.FindExam(exams, examId).value.title
    ensures ExamContext.FindExam(exams, examId).None? || ExamContext.FindExam(exams, examId).value.title == "" ==>
              title == "Unknown Exam"
  {
    match ExamContext.FindExam(exams, examId)
    case None => "Unknown Exam"
    case Some(exam) => if exam.title != "" then exam.title else "Unknown Exam"
  }

  datatype Trend = Up | Down

  /** `getScoreIcon`: up from 60, down below. */
  function ScoreIcon(score: real): (t: Trend)
    ensures t == Up <==> score >= 60.0
  {
    if score >= 80.0 then Up
    else if score >= 60.0 then Up
    else Down
  }

  /** The trend icon agrees with the colour (`getScoreColor`, the results page's bands):
      up exactly outside the low band. */
  lemma IconFollowsBand(score: real)
    ensures ScoreIcon(score) == Up <==> ExamResults.ScoreBand(score) != ExamResults.Low
  {
  }
}
