/** The exam screen (src/components/Exam/ExamInterface.tsx): the question index, the
    exit warning and the time-up flag, the effects that start and submit the attempt,
    the answer routing and the Previous/Next clamps. */
module ExamInterface {
  import opened Types
  import opened ExamContext
  import Timer
  import Numbers

  // ---------------------------------------------------------------------------
  // Navigation and progress

  /** The Previous button: `Math.max(0, i - 1)`. */
  function PreviousIndex(i: int): int {
    if i - 1 > 0 then i - 1 else 0
  }

  /** The Next button: `Math.min(length - 1, i + 1)`. */
  function NextIndex(i: int, length: int): int {
    if length - 1 < i + 1 then length - 1 else i + 1
  }

  /** The clamps keep an index within the questions: from any index in range, Previous
      and Next land in range, one step away at most; each leaves the index where it is
      exactly when its button is disabled (the first, resp. the last question). */
  lemma NavigationStaysInRange(i: int, length: int)
    requires 0 <= i < length
    ensures 0 <= PreviousIndex(i) < length && 0 <= NextIndex(i, length) < length
    ensures i - 1 <= PreviousIndex(i) <= i <= NextIndex(i, length) <= i + 1
    ensures PreviousIndex(i) == i <==> i == 0
    ensures NextIndex(i, length) == i <==> i == length - 1
  {
  }

  /** `((i + 1) / questions.length) * 100`. */
  function Progress(i: int, length: int): (p: real)
    requires length > 0
    ensures 0 <= i < length ==> 0.0 < p <= 100.0
    ensures p == 100.0 <==> i == length - 1
  {
    (i + 1) as real / length as real * 100.0
  }

  /** Moving forward never lowers the progress bar, nor the rounded figure shown. */
  lemma ProgressMonotone(i: int, j: int, length: int)
    requires length > 0 && i <= j
    ensures Progress(i, length) <= Progress(j, length)
    ensures Numbers.Round(Progress(i, length)) <= Numbers.Round(Progress(j, length))
  {
    assert (i + 1) as real / length as real <= (j + 1) as real / length as real;
    Numbers.RoundMonotone(Progress(i, length), Progress(j, length));
  }

  // ---------------------------------------------------------------------------
  // The screen

  class ExamScreen {
    /** The session store the screen reads and drives. */
    const session: ExamSession
    /** The `examId` route parameter, when there is one. */
    const examId: Option<string>
    var currentQuestionIndex: int
    var showExitWarning: bool
    var timeUp: bool
    /** The last route the screen navigated to. */
    var navigatedTo: Option<string>

    ghost predicate Valid()
      reads this, session
    {
      session.Valid() && session.AnswersWithinExam() && currentQuestionIndex >= 0
    }

    /** The index names a question of the current exam (when there is one). */
    predicate IndexInRange()
      reads this, session
    {
      session.currentExam.Some? ==> currentQuestionIndex < |session.currentExam.value.questions|
    }

    /** The question the index names. */
    function CurrentQuestion(): (q: Option<Question>)
      reads this, session
      ensures q.Some? ==> session.currentExam.Some? && q.value in session.currentExam.value.questions
    {
      if session.currentExam.Some? && 0 <= currentQuestionIndex < |session.currentExam.value.questions| then
        Some(session.currentExam.value.questions[currentQuestionIndex])
      else None
    }

    /** `getCurrentAnswer`: undefined without an exam and an attempt, otherwise the
        attempt's entry for the current question's id. */
    function CurrentAnswer(): (v: JsValue)
      reads this, session
      ensures session.currentExam.None? || session.currentAttempt.None? ==> v == Undefined
      ensures session.currentAttempt.Some? && CurrentQuestion().Some? ==>
                v == AnswerOf(session.currentAttempt.value.answers, CurrentQuestion().value.id)
    {
      if session.currentExam.None? || session.currentAttempt.None? then Undefined
      else
        match CurrentQuestion()
        case None => Undefined
        case Some(q) => AnswerOf(session.currentAttempt.value.answers, q.id)
    }

    /** The initial state: first question, no warning, time not up. */
    constructor (session: ExamSession, examId: Option<string>)
      requires session.Valid() && session.AnswersWithinExam()
      ensures Valid()
      ensures this.session == session && this.examId == examId
      ensures currentQuestionIndex == 0 && !showExitWarning && !timeUp && navigatedTo.None?
    {
      this.session := session;
      this.examId := examId;
      currentQuestionIndex := 0;
      showExitWarning := false;
      timeUp := false;
      navigatedTo := None;
    }

    /** The start effect: with a (non-empty) route id and no current exam, an unknown id
        navigates to `/` and starts nothing, and a known id starts that exam. */
    method StartEffect(attemptId: string, now: int)
      requires Valid()
      modifies this`navigatedTo, session`currentExam, session`currentAttempt
      ensures Valid()
      ensures (examId.None? || examId.value == "" || old(session.currentExam).Some?) ==>
                && navigatedTo == old(navigatedTo)
                && session.currentExam == old(session.currentExam)
                && session.currentAttempt == old(session.currentAttempt)
      ensures examId.Some? && examId.value != "" && old(session.currentExam).None? ==>
                if FindExam(session.exams, examId.value).None? then
                  && navigatedTo == Some("/")
                  && session.currentExam.None? && session.currentAttempt == old(session.currentAttempt)
                else
                  && navigatedTo == old(navigatedTo)
                  && session.currentExam == FindExam(session.exams, examId.value)
                  && session.currentAttempt == Some(NewAttempt(attemptId, examId.value, now))
    {
      if examId.Some? && examId.value != "" && session.currentExam.None? {
        var exam := FindExam(session.exams, examId.value);
        if exam.None? {
          navigatedTo := Some("/");
          return;
        }
        session.StartExam(examId.value, attemptId, now);
      }
    }

    /** `handleAnswerChange`: with an exam and an attempt, the answer is recorded under
        the id of the question at the current index, and reading the current answer
        then gives it back; otherwise nothing changes. */
    method HandleAnswerChange(answer: JsValue)
      requires Valid()
      modifies session`currentAttempt
      ensures Valid()
      ensures session.Phase() == old(session.Phase())
      ensures old(CurrentQuestion()).None? || old(session.currentAttempt).None? ==>
                session.currentAttempt == old(session.currentAttempt)
      ensures old(CurrentQuestion()).Some? && old(session.currentAttempt).Some? ==>
                && session.currentAttempt == Some(old(session.currentAttempt).value.(answers :=
                     old(session.currentAttempt).value.answers[old(CurrentQuestion()).value.id := answer]))
                && CurrentAnswer() == answer
    {
      if session.currentExam.Some? && session.currentAttempt.Some? {
        var question := CurrentQuestion();
        if question.None? {
          return;
        }
        session.SubmitAnswer(question.value.id, answer);
        assert question.value in session.currentExam.value.questions;
      }
    }

    /** `handleSubmitExam`: hides the warning, submits and navigates to the results. */
    method HandleSubmitExam(now: int)
      requires Valid()
      modifies this`showExitWarning, this`navigatedTo, session
      ensures Valid() && session.Phase() == Idle
      ensures !showExitWarning && navigatedTo == Some("/results")
      ensures old(session.currentAttempt).None? ==> session.userAttempts == old(session.userAttempts)
      ensures old(session.currentAttempt).Some? ==>
                && session.userAttempts == old(session.userAttempts)
                     + [Finalize(old(session.currentAttempt).value, now,
                                 Score(old(session.currentExam).value.questions, old(session.currentAttempt).value.answers))]
                && session.stored == Some(session.userAttempts) && !session.isFullscreen
    {
      showExitWarning := false;
      session.SubmitExam(now);
      navigatedTo := Some("/results");
    }

    /** The header's Submit button only asks for confirmation. */
    method HandleExitAttempt()
      modifies this`showExitWarning
      ensures showExitWarning
    {
      showExitWarning := true;
    }

    /** The warning's Continue button closes it. */
    method ContinueExam()
      modifies this`showExitWarning
      ensures !showExitWarning
    {
      showExitWarning := false;
    }

    /** The Previous button. */
    method Previous()
      requires Valid()
      modifies this`currentQuestionIndex
      ensures Valid()
      ensures currentQuestionIndex == PreviousIndex(old(currentQuestionIndex))
      ensures old(IndexInRange()) ==> IndexInRange()
    {
      currentQuestionIndex := if 0 > currentQuestionIndex - 1 then 0 else currentQuestionIndex - 1;
    }

    /** The Next button, shown only while an exam is current. */
    method Next()
      requires Valid() && session.currentExam.Some?
      modifies this`currentQuestionIndex
      ensures currentQuestionIndex == NextIndex(old(currentQuestionIndex), |session.currentExam.value.questions|)
      ensures old(IndexInRange()) ==> Valid() && IndexInRange()
    {
      var last := |session.currentExam.value.questions| - 1;
      currentQuestionIndex := if last < currentQuestionIndex + 1 then last else currentQuestionIndex + 1;
    }

    /** A navigator button selects its question. */
    method SelectQuestion(i: int)
      requires Valid() && session.currentExam.Some? && 0 <= i < |session.currentExam.value.questions|
      modifies this`currentQuestionIndex
      ensures Valid() && IndexInRange() && currentQuestionIndex == i
      ensures CurrentQuestion() == Some(session.currentExam.value.questions[i])
    {
      currentQuestionIndex := i;
    }

    /** `onTimeUp` followed by the time-up effect: the effect runs when `timeUp` turns
        true, so the first call with an exam in progress does what the Submit path does
        (warning hidden, the scored attempt appended and stored, the results shown);
        later calls, and a first call without an exam, change nothing else. */
    method TimeUp(now: int)
      requires Valid()
      modifies this`timeUp, this`showExitWarning, this`navigatedTo, session
      ensures Valid() && timeUp
      ensures old(timeUp) || old(session.currentExam).None? ==>
                && unchanged(session)
                && showExitWarning == old(showExitWarning) && navigatedTo == old(navigatedTo)
      ensures !old(timeUp) && old(session.currentExam).Some? ==>
                && session.Phase() == Idle
                && !showExitWarning && navigatedTo == Some("/results")
                && session.userAttempts == old(session.userAttempts)
                     + [Finalize(old(session.currentAttempt).value, now,
                                 Score(old(session.currentExam).value.questions, old(session.currentAttempt).value.answers))]
                && session.stored == Some(session.userAttempts) && !session.isFullscreen
    {
      if timeUp {
        return;
      }
      timeUp := true;
      if session.currentExam.Some? {
        HandleSubmitExam(now);
      }
    }

    /** One tick of the countdown shown on this screen: the clock steps and, when the
        tick calls `onTimeUp`, the time-up path runs. Only the tick that first reaches
        zero submits; every other tick leaves the screen and the session alone. */
    method TimerTick(timer: Timer.Countdown, now: int)
      requires Valid()
      modifies timer, this`timeUp, this`showExitWarning, this`navigatedTo, session
      ensures Valid()
      ensures var step := Timer.Step(old(timer.timeLeft), old(timer.isWarning));
              && timer.timeLeft == step.timeLeft && timer.isWarning == step.isWarning
              && timeUp == (old(timeUp) || step.timeUp)
      ensures old(timeUp) || !Timer.Step(old(timer.timeLeft), old(timer.isWarning)).timeUp
              || old(session.currentExam).None? ==>
                && unchanged(session)
                && showExitWarning == old(showExitWarning) && navigatedTo == old(navigatedTo)
      ensures !old(timeUp) && Timer.Step(old(timer.timeLeft), old(timer.isWarning)).timeUp
              && old(session.currentExam).Some? ==>
                && session.Phase() == Idle
                && !showExitWarning && navigatedTo == Some("/results")
                && session.userAttempts == old(session.userAttempts)
                     + [Finalize(old(session.currentAttempt).value, now,
                                 Score(old(session.currentExam).value.questions, old(session.currentAttempt).value.answers))]
                && session.stored == Some(session.userAttempts) && !session.isFullscreen
    {
      var fired := timer.Tick();
      if fired {
        TimeUp(now);
      }
    }
  }

  /** However many ticks follow the deadline, the attempt is submitted once: a tick
      after time is up leaves the session, the warning and the route alone. */
  method TicksAfterDeadline(screen: ExamScreen, timer: Timer.Countdown, now: int, ticks: nat)
    requires screen.Valid() && screen.timeUp
    modifies timer, screen, screen.session
    ensures screen.Valid() && screen.timeUp
    ensures unchanged(screen.session)
    ensures screen.showExitWarning == old(screen.showExitWarning) && screen.navigatedTo == old(screen.navigatedTo)
  {
    var k := 0;
    while k < ticks
      invariant screen.Valid() && screen.timeUp
      invariant unchanged(screen.session)
      invariant screen.showExitWarning == old(screen.showExitWarning) && screen.navigatedTo == old(screen.navigatedTo)
    {
      screen.TimerTick(timer, now);
      k := k + 1;
    }
  }
}
