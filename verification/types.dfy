/** Records of the exam client (src/types/index.ts) and the JavaScript value semantics
    the client relies on when it inspects answers. */
module Types {

  datatype Option<+T> = None | Some(value: T) {
    /** `x ?? d`: the value, or a default when absent. */
    function GetOr(default: T): T {
      match this
      case Some(v) => v
      case None => default
    }
  }

  /** An answer is stored as an untyped JavaScript value. Numbers are integers here
      (option indices); every object or array is `Object`. */
  datatype JsValue = Undefined | Null | Num(n: int) | Str(s: string) | Bool(b: bool) | Object

  /** JavaScript truthiness, as in `if (v)` or `v || d`. */
  predicate Truthy(v: JsValue) {
    match v
    case Undefined => false
    case Null => false
    case Num(n) => n != 0
    case Str(s) => s != ""
    case Bool(b) => b
    case Object => true
  }

  /** `v === n` for an optional number property `n`: an absent property reads as `undefined`. */
  predicate StrictEqualsOptional(v: JsValue, n: Option<int>) {
    match n
    case None => v == Undefined
    case Some(k) => v == Num(k)
  }

  /** `answers[id]` on a `Record<string, any>`: a missing key reads as `undefined`. */
  function AnswerOf(answers: map<string, JsValue>, id: string): (v: JsValue)
    ensures id !in answers ==> v == Undefined
    ensures id in answers ==> v == answers[id]
  {
    if id in answers then answers[id] else Undefined
  }

  /** A `Record<string, string>` kept as its entries in key order (`Object.keys` order). */
  type Record = seq<(string, string)>

  /** `record[key]`, or None when the key is absent (the first entry wins). */
  function RecordGet(record: Record, key: string): (r: Option<string>)
    ensures r.None? <==> forall i :: 0 <= i < |record| ==> record[i].0 != key
    ensures r.Some? ==> exists i :: 0 <= i < |record| && record[i] == (key, r.value)
  {
    if record == [] then None
    else if record[0].0 == key then Some(record[0].1)
    else
      var r := RecordGet(record[1..], key);
      assert r.Some? ==> exists i :: 0 <= i < |record[1..]| && record[1..][i] == (key, r.value);
      r
  }

  /** `Object.keys(record)`. */
  function RecordKeys(record: Record): (keys: seq<string>)
    ensures |keys| == |record|
    ensures forall i :: 0 <= i < |record| ==> keys[i] == record[i].0
  {
    seq(|record|, i requires 0 <= i < |record| => record[i].0)
  }

  datatype QuestionType = Mcq | Coding

  /** A judged test case of a coding question: id and name are optional. */
  datatype TestCase = TestCase(
    id: Option<int>,
    name: Option<string>,
    input: seq<string>,
    expectedOutput: string,
    isHidden: Option<bool>)

  /** A question: `options` and `correctAnswer` are optional; `functionTemplate` maps a
      language to its starter code. */
  datatype Question = Question(
    id: string,
    qtype: QuestionType,
    title: string,
    description: string,
    points: int,
    options: Option<seq<string>>,
    correctAnswer: Option<int>,
    functionTemplate: Record,
    testCases: Option<seq<TestCase>>)

  /** An exam; `duration` is in minutes. */
  datatype Exam = Exam(
    id: string,
    title: string,
    description: string,
    duration: nat,
    isActive: bool,
    allowedAttempts: int,
    questions: seq<Question>)

  /** One attempt at an exam. Times are milliseconds since the epoch; `endTime` and
      `score` are optional, `isCompleted` is required. */
  datatype ExamAttempt = ExamAttempt(
    id: string,
    examId: string,
    userId: string,
    startTime: int,
    endTime: Option<int>,
    answers: map<string, JsValue>,
    score: Option<real>,
    isCompleted: bool)

  /** The five overall statuses of a run. */
  datatype OverallStatus = Pending | Running | Passed | Failed | Partial

  /** A test case result is only ever running, passed or failed. */
  datatype CaseStatus = CaseRunning | CasePassed | CaseFailed

  datatype CaseResult = CaseResult(
    id: int,
    name: string,
    input: seq<string>,
    expectedOutput: string,
    actualOutput: string,
    executionTime: real,
    memoryUsed: real,
    status: CaseStatus)

  datatype ExecutionResult = ExecutionResult(
    overallStatus: OverallStatus,
    totalExecutionTime: real,
    totalMemoryUsed: real,
    testCases: seq<CaseResult>)

  /** `score || 0`. */
  function ScoreOrZero(a: ExamAttempt): real {
    a.score.GetOr(0.0)
  }
}
