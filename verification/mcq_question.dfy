/** A multiple-choice question (src/components/Exam/MCQQuestion.tsx): the option
    buttons, their letters, which one is highlighted and the answer a click reports. */
module McqQuestion {
  import opened Types
  import ExamContext

  /** How many option buttons are shown; a question without options shows none. */
  function ButtonCount(q: Question): (n: nat)
    ensures q.options.None? ==> n == 0
    ensures q.options.Some? ==> n == |q.options.value|
  {
    match q.options
    case None => 0
    case Some(options) => |options|
  }

  /** `String.fromCharCode(65 + index)`: the UTF-16 code unit of the option's letter. */
  function OptionLabel(index: nat): (code: nat)
    ensures code < 0x1_0000
    ensures index < 26 ==> code == 'A' as int + index && 'A' as int <= code <= 'Z' as int
  {
    (65 + index) % 0x1_0000
  }

  /** Different options up to the code-unit range get different letters. */
  lemma LabelsDistinct(i: nat, j: nat)
    requires i != j && i < 0x1_0000 - 65 && j < 0x1_0000 - 65
    ensures OptionLabel(i) != OptionLabel(j)
  {
  }

  /** Clicking option `index` reports the number `index` as the answer. */
  function Click(index: nat): (answer: JsValue)
    ensures answer.Num? && answer.n == index
  {
    Num(index)
  }

  /** Option `index` is highlighted when `selectedAnswer === index`. */
  predicate IsHighlighted(selected: JsValue, index: nat) {
    selected == Num(index)
  }

  /** At most one option is highlighted, and none while the answer is undefined. */
  lemma AtMostOneHighlighted(selected: JsValue, i: nat, j: nat)
    requires IsHighlighted(selected, i) && IsHighlighted(selected, j)
    ensures i == j
    ensures selected != Undefined
  {
  }

  /** A click is shown back: after clicking option i, exactly option i is highlighted. */
  lemma ClickHighlightsIt(i: nat, j: nat)
    ensures IsHighlighted(Click(i), j) <==> i == j
  {
  }

  /** A clicked option earns the question's points exactly when it is the correct
      answer. */
  lemma ClickScores(q: Question, i: nat)
    requires q.qtype == Mcq
    ensures ExamContext.Score([q], map[q.id := Click(i)])
         == if q.correctAnswer == Some(i) then q.points as real else 0.0
  {
    ExamContext.ScoreIsSumOfCredits([q], [], map[q.id := Click(i)]);
  }
}
