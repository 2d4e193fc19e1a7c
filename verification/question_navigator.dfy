/** The question navigator (src/components/Exam/QuestionNavigator.tsx): which questions
    count as answered, the status and icon of each button, and the progress figure. */
module QuestionNavigator {
  import opened Types

  /** `answer !== undefined && answer !== null && answer !== ''`. */
  predicate HasAnswer(v: JsValue) {
    v != Undefined && v != Null && v != Str("")
  }

  /** Whether the question with this id counts as answered; an id without an entry
      reads `undefined`, so only recorded ids can count. */
  predicate IsAnswered(answers: map<string, JsValue>, id: string)
    ensures IsAnswered(answers, id) ==> id in answers
  {
    HasAnswer(AnswerOf(answers, id))
  }

  datatype ButtonStatus = Current | Answered | Unanswered

  /** `getQuestionStatus`: the current question first, then answered, then not. */
  function Status(q: Question, index: int, currentIndex: int, answers: map<string, JsValue>): (s: ButtonStatus)
    ensures s == Current <==> index == currentIndex
    ensures s == Answered <==> index != currentIndex && IsAnswered(answers, q.id)
    ensures s == Unanswered <==> index != currentIndex && !IsAnswered(answers, q.id)
  {
    if index == currentIndex then Current
    else if IsAnswered(answers, q.id) then Answered
    else Unanswered
  }

  datatype ButtonIcon = CheckIcon | CircleIcon

  /** `getQuestionIcon`: a check for an answered question that is not the current one. */
  function Icon(q: Question, index: int, currentIndex: int, answers: map<string, JsValue>): (icon: ButtonIcon)
    ensures icon == CheckIcon <==> IsAnswered(answers, q.id) && index != currentIndex
  {
    if IsAnswered(answers, q.id) && index != currentIndex then CheckIcon else CircleIcon
  }

  /** Icon and status agree: the check is shown exactly on the buttons coloured as
      answered. */
  lemma IconMatchesStatus(q: Question, index: int, currentIndex: int, answers: map<string, JsValue>)
    ensures Icon(q, index, currentIndex, answers) == CheckIcon <==> Status(q, index, currentIndex, answers) == Answered
  {
  }

  /** The progress figure: `Object.keys(answers).length`, every recorded entry,
      whatever its value. */
  function ProgressCount(answers: map<string, JsValue>): (n: nat)
    ensures n == |answers.Keys|
  {
    |answers.Keys|
  }

  /** The ids of the questions that count as answered. */
  function AnsweredIds(questions: seq<Question>, answers: map<string, JsValue>): (ids: set<string>)
    ensures ids <= answers.Keys
    ensures forall id :: id in ids <==> IsAnswered(answers, id) && exists i :: 0 <= i < |questions| && questions[i].id == id
    decreases |questions|
  {
    if questions == [] then {}
    else
      var q := questions[|questions| - 1];
      var init := questions[..|questions| - 1];
      assert forall i :: 0 <= i < |init| ==> init[i] == questions[i];
      AnsweredIds(init, answers) + (if IsAnswered(answers, q.id) then {q.id} else {})
  }

  /** How many questions count as answered. */
  function AnsweredCount(questions: seq<Question>, answers: map<string, JsValue>): (n: nat)
    ensures n <= |questions|
    decreases |questions|
  {
    if questions == [] then 0
    else
      AnsweredCount(questions[..|questions| - 1], answers)
      + (if IsAnswered(answers, questions[|questions| - 1].id) then 1 else 0)
  }

  ghost predicate DistinctIds(questions: seq<Question>) {
    forall i, j :: 0 <= i < j < |questions| ==> questions[i].id != questions[j].id
  }

  /** With distinct ids, the answered questions are as many as their ids. */
  lemma {:induction false} AnsweredCountIsIds(questions: seq<Question>, answers: map<string, JsValue>)
    requires DistinctIds(questions)
    ensures AnsweredCount(questions, answers) == |AnsweredIds(questions, answers)|
    decreases |questions|
  {
    if questions != [] {
      var q := questions[|questions| - 1];
      var init := questions[..|questions| - 1];
      assert DistinctIds(init);
      AnsweredCountIsIds(init, answers);
      assert q.id !in AnsweredIds(init, answers);
    }
  }

  lemma {:induction false} SubsetCardinality(a: set<string>, b: set<string>)
    requires a <= b
    ensures |a| <= |b|
    decreases |a|
  {
    if a != {} {
      var x :| x in a;
      SubsetCardinality(a - {x}, b - {x});
    }
  }

  /** The progress figure never undercounts: with distinct question ids it is at least
      the number of answered questions. */
  lemma ProgressCoversAnswered(questions: seq<Question>, answers: map<string, JsValue>)
    requires DistinctIds(questions)
    ensures AnsweredCount(questions, answers) <= ProgressCount(answers)
  {
    AnsweredCountIsIds(questions, answers);
    SubsetCardinality(AnsweredIds(questions, answers), answers.Keys);
  }

  /** It can overcount: an entry holding `null` (or '') is counted as progress while
      its question shows as unanswered. */
  lemma ProgressMayExceedAnswered(q: Question)
    ensures AnsweredCount([q], map[q.id := Null]) == 0
    ensures ProgressCount(map[q.id := Null]) == 1
  {
    assert [q][..0] == [];
    assert map[q.id := Null].Keys == {q.id};
  }
}
