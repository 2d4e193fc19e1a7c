/** A coding question (src/components/Exam/CodingQuestion.tsx): the languages offered,
    the code kept per language, the run of the code against the judge and the fallback
    result when that call fails. The editor's reset and change callbacks
    (src/components/Exam/CodeEditor.tsx) feed into the same code map. */
module CodingQuestion {
  import opened Types
  import CodeEditor
  import TestCasesPanel

  /** `Object.keys(question.functionTemplate || {})`. */
  function Languages(q: Question): (languages: seq<string>)
    ensures |languages| == |q.functionTemplate|
    ensures forall i :: 0 <= i < |languages| ==> RecordGet(q.functionTemplate, languages[i]).Some?
  {
    var keys := RecordKeys(q.functionTemplate);
    assert forall i :: 0 <= i < |keys| ==> q.functionTemplate[i].0 == keys[i];
    keys
  }

  /** The key a possibly undefined language is stored under: JavaScript turns an
      `undefined` property name into the string "undefined". */
  function LanguageKey(language: Option<string>): string {
    language.GetOr("undefined")
  }

  /** The code shown when switching to a language: `codeMap[lang] ||
      functionTemplate?.[lang] || ""` — the code already written for it when that is
      non-empty, else the language's template, else the empty string. */
  function Starter(codeMap: map<string, string>, template: Record, language: string): (code: string)
    ensures language in codeMap && codeMap[language] != "" ==> code == codeMap[language]
    ensures !(language in codeMap && codeMap[language] != "") ==> code == CodeEditor.ResetCode(template, language)
  {
    if language in codeMap && codeMap[language] != "" then codeMap[language]
    else RecordGet(template, language).GetOr("")
  }

  /** What the judge answered: a result, or an error (network or server). */
  datatype JudgeResponse = JudgeOk(result: ExecutionResult) | JudgeError

  /** The arguments of the `runCode` call. */
  datatype RunRequest = RunRequest(examId: string, questionId: string, code: Option<string>, language: Option<string>)

  /** The result shown when the call fails: failed, no test cases, no time, no memory. */
  function FallbackResult(): (r: ExecutionResult)
    ensures r.overallStatus == Failed && r.testCases == []
    ensures r.totalExecutionTime == 0.0 && r.totalMemoryUsed == 0.0
  {
    ExecutionResult(Failed, 0.0, 0.0, [])
  }

  /** The output a settled run shows: the judge's four fields, or the fallback. */
  function Outcome(response: JudgeResponse): (r: ExecutionResult)
    ensures response.JudgeOk? ==> r == response.result
    ensures response.JudgeError? ==> r == FallbackResult()
  {
    match response
    case JudgeOk(result) => ExecutionResult(result.overallStatus, result.totalExecutionTime,
                                            result.totalMemoryUsed, result.testCases)
    case JudgeError => FallbackResult()
  }

  /** A failed call reads as a failed run: the panel counts no pass and labels it
      "Failed". */
  lemma ErrorReadsAsFailure()
    ensures TestCasesPanel.PassedCount(Some(Outcome(JudgeError))) == 0
    ensures TestCasesPanel.SummaryLabel(Outcome(JudgeError).overallStatus) == "Failed"
    ensures TestCasesPanel.OverallTone(Some(Outcome(JudgeError))) == TestCasesPanel.Red
  {
  }

  class CodingPanel {
    var question: Question
    const examId: string
    var selectedLanguage: Option<string>
    var codeMap: map<string, string>
    var output: Option<ExecutionResult>
    var isRunning: bool

    /** The initial state: the first language (none when the question has no
        template), no code, no output, not running. */
    constructor (question: Question, examId: string)
      ensures this.question == question && this.examId == examId
      ensures |Languages(question)| > 0 ==> selectedLanguage == Some(Languages(question)[0])
      ensures |Languages(question)| == 0 ==> selectedLanguage.None?
      ensures codeMap == map[] && output.None? && !isRunning
    {
      this.question := question;
      this.examId := examId;
      var languages := Languages(question);
      selectedLanguage := if |languages| > 0 then Some(languages[0]) else None;
      codeMap := map[];
      output := None;
      isRunning := false;
    }

    /** The question effect: with at least one language, the first language's entry
        becomes its template; every other entry is kept. */
    method QuestionEffect()
      modifies this`codeMap
      ensures |question.functionTemplate| == 0 ==> codeMap == old(codeMap)
      ensures |question.functionTemplate| > 0 ==>
                && codeMap == old(codeMap)[Languages(question)[0] := question.functionTemplate[0].1]
                && codeMap[Languages(question)[0]] == CodeEditor.ResetCode(question.functionTemplate, Languages(question)[0])
    {
      var languages := Languages(question);
      if |languages| > 0 {
        var defaultCode := RecordGet(question.functionTemplate, languages[0]).GetOr("");
        codeMap := codeMap[languages[0] := defaultCode];
      }
    }

    /** The effects a newly set question triggers, on mount and on every question
        change: the editor's reset first (a child's effects run before its parent's),
        then the question effect. The selected language ends up holding the
        question's template, whatever was written for it before. */
    method QuestionEffects()
      modifies this`codeMap
      ensures var key := LanguageKey(selectedLanguage);
              var reset := old(codeMap)[key := CodeEditor.ResetCode(question.functionTemplate, key)];
              && (|question.functionTemplate| == 0 ==> codeMap == reset)
              && (|question.functionTemplate| > 0 ==>
                    codeMap == reset[Languages(question)[0] := question.functionTemplate[0].1])
      ensures LanguageKey(selectedLanguage) in codeMap
      ensures codeMap[LanguageKey(selectedLanguage)] == CodeEditor.ResetCode(question.functionTemplate, LanguageKey(selectedLanguage))
    {
      EditorReset();
      QuestionEffect();
    }

    /** The component shows another coding question (it is not remounted): its state
        is kept, including the selected language, and the new question's effects run,
        so the selected language's code becomes the new question's template. */
    method ChangeQuestion(q: Question)
      modifies this`question, this`codeMap
      ensures question == q && selectedLanguage == old(selectedLanguage)
      ensures var key := LanguageKey(selectedLanguage);
              var reset := old(codeMap)[key := CodeEditor.ResetCode(q.functionTemplate, key)];
              && (|q.functionTemplate| == 0 ==> codeMap == reset)
              && (|q.functionTemplate| > 0 ==> codeMap == reset[Languages(q)[0] := q.functionTemplate[0].1])
      ensures LanguageKey(selectedLanguage) in codeMap
      ensures codeMap[LanguageKey(selectedLanguage)] == CodeEditor.ResetCode(q.functionTemplate, LanguageKey(selectedLanguage))
    {
      question := q;
      QuestionEffects();
    }

    /** `handleLanguageChange`: selects the language, shows its starter code and clears
        the output; the other languages' code is kept. */
    method HandleLanguageChange(language: string)
      modifies this`selectedLanguage, this`codeMap, this`output
      ensures selectedLanguage == Some(language) && output.None?
      ensures codeMap == old(codeMap)[language := Starter(old(codeMap), question.functionTemplate, language)]
      ensures old(language in codeMap && codeMap[language] != "") ==> codeMap == old(codeMap)
    {
      selectedLanguage := Some(language);
      var starter := if language in codeMap && codeMap[language] != "" then codeMap[language]
                     else RecordGet(question.functionTemplate, language).GetOr("");
      codeMap := codeMap[language := starter];
      output := None;
    }

    /** `handleCodeChange`: only the selected language's entry changes. */
    method HandleCodeChange(newCode: string)
      modifies this`codeMap
      ensures codeMap == old(codeMap)[LanguageKey(selectedLanguage) := newCode]
      ensures forall l :: l != LanguageKey(selectedLanguage) && l in old(codeMap) ==> l in codeMap && codeMap[l] == old(codeMap)[l]
    {
      codeMap := codeMap[LanguageKey(selectedLanguage) := newCode];
    }

    /** The editor reports an edit (`value || ""`). */
    method EditorChange(value: Option<string>)
      modifies this`codeMap
      ensures codeMap == old(codeMap)[LanguageKey(selectedLanguage) := CodeEditor.NormaliseChange(value)]
    {
      HandleCodeChange(CodeEditor.NormaliseChange(value));
    }

    /** The editor's reset (its effect on a language or question change, or the reset
        button): the selected language's entry becomes its template, or "". */
    method EditorReset()
      modifies this`codeMap
      ensures codeMap == old(codeMap)[LanguageKey(selectedLanguage) :=
                                      CodeEditor.ResetCode(question.functionTemplate, LanguageKey(selectedLanguage))]
    {
      var template := CodeEditor.ResetCode(question.functionTemplate, LanguageKey(selectedLanguage));
      HandleCodeChange(template);
    }

    /** Picking a language in the selector, followed by the editor's reset effect that
        the new language triggers: the code restored by `handleLanguageChange` is
        overwritten by the template, so code already written for that language is
        not shown again. */
    method SwitchLanguage(language: string)
      modifies this`selectedLanguage, this`codeMap, this`output
      ensures selectedLanguage == Some(language) && output.None?
      ensures language in codeMap && codeMap[language] == CodeEditor.ResetCode(question.functionTemplate, language)
      ensures forall l :: l != language && l in old(codeMap) ==> l in codeMap && codeMap[l] == old(codeMap)[l]
    {
      HandleLanguageChange(language);
      EditorReset();
    }

    /** `question.testCases || []`: the cases handed to the test panel. */
    function PanelTestCases(): seq<TestCase>
      reads this
    {
      question.testCases.GetOr([])
    }

    /** The first half of `handleRunCode`: running, no output, and the call it makes
        with the selected language's code. */
    method BeginRun() returns (request: RunRequest)
      modifies this`isRunning, this`output
      ensures isRunning && output.None?
      ensures !TestCasesPanel.ShowSummary(PanelTestCases(), output, isRunning)
      ensures request.examId == examId && request.questionId == question.id
      ensures request.language == selectedLanguage
      ensures request.code == if LanguageKey(selectedLanguage) in codeMap
                              then Some(codeMap[LanguageKey(selectedLanguage)]) else None
    {
      isRunning := true;
      output := None;
      var key := LanguageKey(selectedLanguage);
      var code := if key in codeMap then Some(codeMap[key]) else None;
      request := RunRequest(examId, question.id, code, selectedLanguage);
    }

    /** The second half of `handleRunCode`: the call settled, successfully or not; the
        output is set and the run is over on both paths, so the summary shows exactly
        when the question has test cases. */
    method FinishRun(response: JudgeResponse)
      modifies this`isRunning, this`output
      ensures !isRunning && output == Some(Outcome(response))
      ensures TestCasesPanel.ShowSummary(PanelTestCases(), output, isRunning) <==> |PanelTestCases()| > 0
    {
      match response {
        case JudgeOk(result) =>
          output := Some(ExecutionResult(result.overallStatus, result.totalExecutionTime,
                                         result.totalMemoryUsed, result.testCases));
        case JudgeError =>
          output := Some(ExecutionResult(Failed, 0.0, 0.0, []));
      }
      isRunning := false;
    }

    /** The Run button is enabled only while no run is in progress. */
    predicate RunEnabled()
      reads this
    {
      !isRunning
    }
  }
}
