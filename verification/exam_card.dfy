/** An exam's card on the dashboard (src/components/Dashboard/ExamCard.tsx): the
    attempt count, whether the exam may be taken again, the last attempt and its
    score. */
module ExamCard {
  import opened Types
  import opened History
  import Numbers
  import ExamContext

  /** `attemptCount`: the attempts for this exam, completed or not. */
  function AttemptCount(attempts: seq<ExamAttempt>, examId: string): (n: nat)
    ensures n == |ForExam(attempts, examId)|
    ensures n <= |attempts|
  {
    CountBelow(attempts, examId);
    |ForExam(attempts, examId)|
  }

  lemma {:induction false} CountBelow(attempts: seq<ExamAttempt>, examId: string)
    ensures |ForExam(attempts, examId)| <= |attempts|
    decreases |attempts|
  {
    if attempts != [] {
      CountBelow(attempts[1..], examId);
    }
  }

  /** `canTakeExam`: fewer attempts than allowed. */
  predicate CanTakeExam(exam: Exam, attempts: seq<ExamAttempt>) {
    AttemptCount(attempts, exam.id) < exam.allowedAttempts
  }

  /** The counter is shown in red exactly when the exam may not be taken again. */
  function CounterFlagged(exam: Exam, attempts: seq<ExamAttempt>): (flagged: bool)
    ensures flagged <==> !CanTakeExam(exam, attempts)
  {
    AttemptCount(attempts, exam.id) >= exam.allowedAttempts
  }

  /** `handleStartExam`: the route it navigates to, only when the exam may be taken. */
  function HandleStartExam(exam: Exam, attempts: seq<ExamAttempt>): (target: Option<string>)
    ensures target.Some? <==> CanTakeExam(exam, attempts)
    ensures target.Some? ==> target.value == "/exam/" + exam.id
  {
    if CanTakeExam(exam, attempts) then Some("/exam/" + exam.id) else None
  }

  /** `lastAttempt`: the head of this exam's attempts sorted by start time, latest
      first: none without attempts, otherwise an attempt for this exam that no other
      attempt for it started after. */
  function LastAttempt(exam: Exam, attempts: seq<ExamAttempt>): (last: Option<ExamAttempt>)
    ensures last.None? <==> forall a :: a in attempts ==> a.examId != exam.id
    ensures last.Some? ==> last.value in attempts && last.value.examId == exam.id
    ensures last.Some? ==> forall a :: a in attempts && a.examId == exam.id ==> a.startTime <= last.value.startTime
  {
    var own := ForExam(attempts, exam.id);
    assert own != [] ==> own[0] in own;
    Latest(own, StartTime)
  }

  /** The last score shown: `Math.round(score || 0)`. */
  function LastScoreShown(last: ExamAttempt): (shown: int)
    ensures shown as real - 0.5 <= ScoreOrZero(last) < shown as real + 0.5
  {
    Numbers.Round(ScoreOrZero(last))
  }

  /** Submitting an attempt of an exam raises that exam's count by one and leaves every
      other exam's count alone; so once the count reaches `allowedAttempts` the card
      refuses to start the exam again. */
  lemma {:induction false} SubmitCountsOnce(attempts: seq<ExamAttempt>, a: ExamAttempt, examId: string)
    ensures AttemptCount(attempts + [a], examId)
         == AttemptCount(attempts, examId) + (if a.examId == examId then 1 else 0)
  {
    ForExamAppend(attempts, a, examId);
  }

  /** `submitExam` followed by the card: the count of the submitted exam grows by one. */
  lemma SubmittedAttemptIsCounted(attempts: seq<ExamAttempt>, current: ExamAttempt, now: int, score: real)
    ensures AttemptCount(attempts + [ExamContext.Finalize(current, now, score)], current.examId)
         == AttemptCount(attempts, current.examId) + 1
  {
    SubmitCountsOnce(attempts, ExamContext.Finalize(current, now, score), current.examId);
  }
}
