/** The session store (src/context/ExamContext.tsx): the exam catalog, the attempt in
    progress, the attempt history and the fullscreen flag, with `startExam`,
    `submitAnswer` and `submitExam`, and the scoring fold `submitExam` runs. */
module ExamContext {
  import opened Types

  // ---------------------------------------------------------------------------
  // Scoring

  /** What one question adds to the score: its points for a multiple-choice question
      whose answer is strictly equal to `correctAnswer`, and `0.8 * points` for a coding
      question whose answer is truthy. */
  function Credit(q: Question, answers: map<string, JsValue>): (c: real)
    ensures q.points >= 0 ==> 0.0 <= c <= q.points as real
  {
    var userAnswer := AnswerOf(answers, q.id);
    (if q.qtype == Mcq && StrictEqualsOptional(userAnswer, q.correctAnswer) then q.points as real else 0.0)
    + (if q.qtype == Coding && Truthy(userAnswer) then q.points as real * 0.8 else 0.0)
  }

  /** The score of a set of answers: the credits of the questions, added in order. */
  function Score(questions: seq<Question>, answers: map<string, JsValue>): real
    decreases |questions|
  {
    if questions == [] then 0.0
    else Score(questions[..|questions| - 1], answers) + Credit(questions[|questions| - 1], answers)
  }

  /** Points of the multiple-choice questions. */
  function McqPoints(questions: seq<Question>): int
    decreases |questions|
  {
    if questions == [] then 0
    else
      var q := questions[|questions| - 1];
      McqPoints(questions[..|questions| - 1]) + (if q.qtype == Mcq then q.points else 0)
  }

  /** Points of the coding questions. */
  function CodingPoints(questions: seq<Question>): int
    decreases |questions|
  {
    if questions == [] then 0
    else
      var q := questions[|questions| - 1];
      CodingPoints(questions[..|questions| - 1]) + (if q.qtype == Coding then q.points else 0)
  }

  ghost predicate NonNegativePoints(questions: seq<Question>) {
    forall i :: 0 <= i < |questions| ==> questions[i].points >= 0
  }

  /** The `forEach` loop of `submitExam`: it adds each question's credit to `score`. */
  method ComputeScore(questions: seq<Question>, answers: map<string, JsValue>) returns (score: real)
    ensures score == Score(questions, answers)
  {
    score := 0.0;
    var i := 0;
    while i < |questions|
      invariant 0 <= i <= |questions|
      invariant score == Score(questions[..i], answers)
    {
      var question := questions[i];
      var userAnswer := AnswerOf(answers, question.id);
      if question.qtype == Mcq && StrictEqualsOptional(userAnswer, question.correctAnswer) {
        score := score + question.points as real;
      }
      if question.qtype == Coding && Truthy(userAnswer) {
        score := score + question.points as real * 0.8;
      }
      assert questions[..i + 1][..i] == questions[..i];
      i := i + 1;
    }
    assert questions[..|questions|] == questions;
  }

  /** The score is a sum: one question scores its credit, and the score of two runs of
      questions is the sum of their scores. */
  lemma {:induction false} ScoreIsSumOfCredits(xs: seq<Question>, ys: seq<Question>, answers: map<string, JsValue>)
    ensures Score(xs + ys, answers) == Score(xs, answers) + Score(ys, answers)
    ensures |xs| == 1 ==> Score(xs, answers) == Credit(xs[0], answers)
    decreases |ys|
  {
    if |xs| == 1 {
      assert xs[..0] == [];
    }
    if ys == [] {
      assert xs + ys == xs;
    } else {
      var zs := ys[..|ys| - 1];
      assert (xs + ys)[..|xs + ys| - 1] == xs + zs;
      ScoreIsSumOfCredits(xs, zs, answers);
    }
  }

  /** With non-negative points, the score lies between 0 and the multiple-choice points
      plus four fifths of the coding points. */
  lemma {:induction false} ScoreBounds(questions: seq<Question>, answers: map<string, JsValue>)
    requires NonNegativePoints(questions)
    ensures 0.0 <= Score(questions, answers)
    ensures Score(questions, answers) <= McqPoints(questions) as real + 0.8 * CodingPoints(questions) as real
    decreases |questions|
  {
    if questions != [] {
      var init := questions[..|questions| - 1];
      assert NonNegativePoints(init);
      ScoreBounds(init, answers);
    }
  }

  /** The score reads only the answers recorded under the questions' ids. */
  lemma {:induction false} ScoreReadsOnlyQuestionIds(questions: seq<Question>, a1: map<string, JsValue>, a2: map<string, JsValue>)
    requires forall i :: 0 <= i < |questions| ==> AnswerOf(a1, questions[i].id) == AnswerOf(a2, questions[i].id)
    ensures Score(questions, a1) == Score(questions, a2)
    decreases |questions|
  {
    if questions != [] {
      ScoreReadsOnlyQuestionIds(questions[..|questions| - 1], a1, a2);
    }
  }

  /** Strict equality as written: an unanswered multiple-choice question without a
      `correctAnswer` earns its points, and one whose answer is `null` does not. */
  lemma UnansweredMcqWithoutKeyScores(q: Question)
    requires q.qtype == Mcq && q.correctAnswer.None?
    ensures Score([q], map[]) == q.points as real
    ensures Score([q], map[q.id := Null]) == 0.0
  {
    ScoreIsSumOfCredits([q], [], map[]);
    ScoreIsSumOfCredits([q], [], map[q.id := Null]);
  }

  /** A coding answer earns credit by truthiness: any non-empty code, but not `0`,
      `false` or the empty string. */
  lemma CodingCreditIsTruthiness(q: Question, answer: JsValue)
    requires q.qtype == Coding
    ensures Score([q], map[q.id := answer]) == if Truthy(answer) then q.points as real * 0.8 else 0.0
  {
    ScoreIsSumOfCredits([q], [], map[q.id := answer]);
  }

  // ---------------------------------------------------------------------------
  // Catalog lookup and attempts

  /** The index of the first exam with the given id at or after `from` (`exams.find`). */
  function FirstWithId(exams: seq<Exam>, examId: string, from: nat): (r: Option<nat>)
    requires from <= |exams|
    ensures r.Some? ==> from <= r.value < |exams| && exams[r.value].id == examId
    ensures r.Some? ==> forall j :: from <= j < r.value ==> exams[j].id != examId
    ensures r.None? ==> forall j :: from <= j < |exams| ==> exams[j].id != examId
    decreases |exams| - from
  {
    if from == |exams| then None
    else if exams[from].id == examId then Some(from)
    else FirstWithId(exams, examId, from + 1)
  }

  /** `exams.find(e => e.id === examId)`: the first exam with that id, or None when no
      exam has it. */
  function FindExam(exams: seq<Exam>, examId: string): (r: Option<Exam>)
    ensures r.None? <==> forall e :: e in exams ==> e.id != examId
    ensures r.Some? ==> r.value in exams && r.value.id == examId
    ensures r.Some? ==> exists i :: 0 <= i < |exams| && exams[i] == r.value
                                    && forall j :: 0 <= j < i ==> exams[j].id != examId
  {
    match FirstWithId(exams, examId, 0)
    case None => None
    case Some(i) => Some(exams[i])
  }

  /** The attempt `startExam` creates: the given id and time, user '1', no answers, not
      completed. */
  function NewAttempt(attemptId: string, examId: string, now: int): (a: ExamAttempt)
    ensures a.id == attemptId && a.examId == examId && a.startTime == now
    ensures a.answers == map[] && !a.isCompleted && a.endTime.None? && a.score.None?
  {
    ExamAttempt(attemptId, examId, "1", now, None, map[], None, false)
  }

  /** The attempt `submitExam` appends: the current one with its end time, its score
      and the completed flag set; nothing else changes. */
  function Finalize(a: ExamAttempt, now: int, score: real): (c: ExamAttempt)
    ensures c.isCompleted && c.endTime == Some(now) && c.score == Some(score)
    ensures c.id == a.id && c.examId == a.examId && c.userId == a.userId
    ensures c.startTime == a.startTime && c.answers == a.answers
  {
    a.(endTime := Some(now), score := Some(score), isCompleted := true)
  }

  /** Every attempt in the history is completed, with an end time and a score. */
  ghost predicate AllFinalized(history: seq<ExamAttempt>) {
    forall i :: 0 <= i < |history| ==>
      history[i].isCompleted && history[i].endTime.Some? && history[i].score.Some?
  }

  /** Idle (no attempt) or in progress on one exam. */
  datatype Phase = Idle | InProgress(examId: string)

  // ---------------------------------------------------------------------------
  // The session

  class ExamSession {
    var exams: seq<Exam>
    var currentExam: Option<Exam>
    var currentAttempt: Option<ExamAttempt>
    var userAttempts: seq<ExamAttempt>
    var isFullscreen: bool
    /** What is stored under the key `userAttempts` (serialisation is not modelled). */
    var stored: Option<seq<ExamAttempt>>

    /** The exam and the attempt are present together; the attempt is for that exam and
        is still open. */
    ghost predicate Valid()
      reads this
    {
      && (currentExam.Some? <==> currentAttempt.Some?)
      && (currentAttempt.Some? ==>
            && currentAttempt.value.examId == currentExam.value.id
            && !currentAttempt.value.isCompleted
            && currentAttempt.value.endTime.None?
            && currentAttempt.value.score.None?)
    }

    function Phase(): Phase
      reads this
    {
      if currentAttempt.Some? then InProgress(currentAttempt.value.examId) else Idle
    }

    /** Every answer of the attempt in progress is keyed by a question of its exam. */
    ghost predicate AnswersWithinExam()
      reads this
    {
      currentExam.Some? && currentAttempt.Some? ==>
        forall id :: id in currentAttempt.value.answers ==>
          exists q :: q in currentExam.value.questions && q.id == id
    }

    /** The provider's mount: the stored history is read (when present); the catalog is
        still empty. */
    constructor (storedAttempts: Option<seq<ExamAttempt>>)
      ensures Valid() && Phase() == Idle && AnswersWithinExam()
      ensures exams == [] && currentExam.None? && currentAttempt.None?
      ensures userAttempts == storedAttempts.GetOr([]) && !isFullscreen
      ensures stored == storedAttempts
    {
      exams := [];
      currentExam := None;
      currentAttempt := None;
      userAttempts := storedAttempts.GetOr([]);
      isFullscreen := false;
      stored := storedAttempts;
    }

    /** The catalog fetch settles: on success the exams are replaced, on failure nothing
        changes. */
    method LoadCatalog(response: Option<seq<Exam>>)
      modifies this`exams
      ensures exams == response.GetOr(old(exams))
    {
      if response.Some? {
        exams := response.value;
      }
    }

    /** `startExam`: with an unknown id nothing changes; otherwise the found exam becomes
        current with a fresh attempt, replacing any attempt in progress. The attempt
        limit is not checked here. */
    method StartExam(examId: string, attemptId: string, now: int)
      requires Valid()
      modifies this`currentExam, this`currentAttempt
      ensures Valid()
      ensures FindExam(exams, examId).None? ==>
                currentExam == old(currentExam) && currentAttempt == old(currentAttempt)
      ensures FindExam(exams, examId).Some? ==>
                && currentExam == FindExam(exams, examId)
                && currentAttempt == Some(NewAttempt(attemptId, examId, now))
                && Phase() == InProgress(examId)
                && AnswersWithinExam()
      ensures old(AnswersWithinExam()) ==> AnswersWithinExam()
    {
      var exam := FindExam(exams, examId);
      if exam.None? {
        return;
      }
      var attempt := NewAttempt(attemptId, examId, now);
      currentExam := exam;
      currentAttempt := Some(attempt);
    }

    /** `submitAnswer`: without an attempt nothing changes; otherwise the answer is
        recorded under the question id (the last write wins) and nothing else changes. */
    method SubmitAnswer(questionId: string, answer: JsValue)
      requires Valid()
      modifies this`currentAttempt
      ensures Valid() && Phase() == old(Phase())
      ensures old(currentAttempt).None? ==> currentAttempt.None?
      ensures old(currentAttempt).Some? ==>
                currentAttempt == Some(old(currentAttempt).value.(answers := old(currentAttempt).value.answers[questionId := answer]))
      ensures currentAttempt.Some? ==>
                && AnswerOf(currentAttempt.value.answers, questionId) == answer
                && forall id :: id != questionId ==>
                     AnswerOf(currentAttempt.value.answers, id) == AnswerOf(old(currentAttempt).value.answers, id)
    {
      if currentAttempt.None? {
        return;
      }
      var attempt := currentAttempt.value;
      var updatedAttempt := attempt.(answers := attempt.answers[questionId := answer]);
      currentAttempt := Some(updatedAttempt);
    }

    /** `submitExam`: without an attempt nothing changes; otherwise the attempt is scored,
        completed, appended to the history (which is also stored), and the session goes
        back to idle with fullscreen off. */
    method SubmitExam(now: int)
      requires Valid()
      modifies this
      ensures Valid() && Phase() == Idle && AnswersWithinExam()
      ensures exams == old(exams)
      ensures old(currentAttempt).None? ==>
                && userAttempts == old(userAttempts) && stored == old(stored)
                && isFullscreen == old(isFullscreen) && currentExam.None?
      ensures old(currentAttempt).Some? ==>
                && userAttempts == old(userAttempts)
                     + [Finalize(old(currentAttempt).value, now,
                                 Score(old(currentExam).value.questions, old(currentAttempt).value.answers))]
                && stored == Some(userAttempts)
                && currentExam.None? && currentAttempt.None? && !isFullscreen
      ensures AllFinalized(old(userAttempts)) ==> AllFinalized(userAttempts)
    {
      if currentAttempt.None? || currentExam.None? {
        return;
      }
      var score := ComputeScore(currentExam.value.questions, currentAttempt.value.answers);
      var completedAttempt := Finalize(currentAttempt.value, now, score);
      var updatedAttempts := userAttempts + [completedAttempt];
      userAttempts := updatedAttempts;
      stored := Some(updatedAttempts);
      currentExam := None;
      currentAttempt := None;
      isFullscreen := false;
    }

    /** `setIsFullscreen`. */
    method SetIsFullscreen(value: bool)
      modifies this`isFullscreen
      ensures isFullscreen == value
    {
      isFullscreen := value;
    }
  }

  /** Two submits in a row, as when a click and the deadline both fire: the history grows
      by at most one attempt. */
  method SubmitTwice(session: ExamSession, now: int)
    requires session.Valid()
    modifies session
    ensures session.Phase() == Idle
    ensures |old(session.userAttempts)| <= |session.userAttempts| <= |old(session.userAttempts)| + 1
    ensures session.userAttempts[..|old(session.userAttempts)|] == old(session.userAttempts)
  {
    session.SubmitExam(now);
    session.SubmitExam(now);
  }
}
