/** The test-case panel (src/components/Exam/TestCasesPanel.tsx): the pass count, the
    status icons and colours, the summary label and the pairing of a question's test
    case with its result. */
module TestCasesPanel {
  import opened Types

  // ---------------------------------------------------------------------------
  // Counts

  /** The number of result cases whose status is `passed`. */
  function CountPassed(cases: seq<CaseResult>): (n: nat)
    ensures n <= |cases|
    ensures n == |cases| <==> forall i :: 0 <= i < |cases| ==> cases[i].status == CasePassed
    ensures n == 0 <==> forall i :: 0 <= i < |cases| ==> cases[i].status != CasePassed
    decreases |cases|
  {
    if cases == [] then 0
    else
      var rest := CountPassed(cases[1..]);
      assert forall i :: 1 <= i < |cases| ==> cases[i] == cases[1..][i - 1];
      (if cases[0].status == CasePassed then 1 else 0) + rest
  }

  /** `passedCount`: the passed result cases, or 0 without a result. */
  function PassedCount(result: Option<ExecutionResult>): (n: nat)
    ensures result.None? ==> n == 0
    ensures result.Some? ==> n == CountPassed(result.value.testCases)
  {
    match result
    case None => 0
    case Some(r) => CountPassed(r.testCases)
  }

  /** `totalCount`: the question's test cases, not the result's. */
  function TotalCount(testCases: seq<TestCase>): (n: nat)
    ensures n == |testCases|
  {
    |testCases|
  }

  /** Because the two counts come from different lists, "passed/total" can show more
      passes than tests: a result with one passing case for a question that lists no
      test case. */
  lemma PassedMayExceedTotal(c: CaseResult)
    requires c.status == CasePassed
    ensures PassedCount(Some(ExecutionResult(Passed, 0.0, 0.0, [c]))) > TotalCount([])
  {
    assert CountPassed([c]) == 1 + CountPassed([]);
  }

  // ---------------------------------------------------------------------------
  // Status mappings

  datatype Icon = Spinner | Check | Cross | ClockIcon

  datatype Tone = Blue | Green | Red | Gray

  /** `getStatusIcon`: a spinner, a check or a cross for running, passed and failed; a
      clock for anything else, including no result. */
  function StatusIcon(status: Option<CaseStatus>): (icon: Icon)
    ensures icon == ClockIcon <==> status.None?
    ensures icon == Spinner <==> status == Some(CaseRunning)
    ensures icon == Check <==> status == Some(CasePassed)
    ensures icon == Cross <==> status == Some(CaseFailed)
  {
    match status
    case Some(CaseRunning) => Spinner
    case Some(CasePassed) => Check
    case Some(CaseFailed) => Cross
    case None => ClockIcon
  }

  /** `getStatusColor`: blue, green and red for running, passed and failed; gray for
      anything else. */
  function StatusTone(status: Option<CaseStatus>): (tone: Tone)
    ensures tone == Gray <==> status.None?
    ensures tone == Blue <==> status == Some(CaseRunning)
    ensures tone == Green <==> status == Some(CasePassed)
    ensures tone == Red <==> status == Some(CaseFailed)
  {
    match status
    case Some(CaseRunning) => Blue
    case Some(CasePassed) => Green
    case Some(CaseFailed) => Red
    case None => Gray
  }

  /** Icon and colour tell the same story: each determines the status. */
  lemma IconAndToneAgree(s1: Option<CaseStatus>, s2: Option<CaseStatus>)
    ensures StatusIcon(s1) == StatusIcon(s2) <==> s1 == s2
    ensures StatusTone(s1) == StatusTone(s2) <==> s1 == s2
  {
  }

  /** `getOverallStatusColor`: gray without a result; failed and partial share red. */
  function OverallTone(result: Option<ExecutionResult>): (tone: Tone)
    ensures result.None? ==> tone == Gray
    ensures result.Some? ==>
              && (tone == Blue <==> result.value.overallStatus == Running)
              && (tone == Green <==> result.value.overallStatus == Passed)
              && (tone == Red <==> result.value.overallStatus in {Failed, Partial})
              && (tone == Gray <==> result.value.overallStatus == Pending)
  {
    match result
    case None => Gray
    case Some(r) =>
      match r.overallStatus
      case Running => Blue
      case Passed => Green
      case Failed => Red
      case Partial => Red
      case Pending => Gray
  }

  /** The summary's status text: pending and running both read "Pending". */
  function SummaryLabel(status: OverallStatus): (text: string)
    ensures text == "All Passed" <==> status == Passed
    ensures text == "Partially Passed" <==> status == Partial
    ensures text == "Failed" <==> status == Failed
    ensures text == "Pending" <==> status == Pending || status == Running
  {
    // the four texts differ in length, hence are distinct
    assert |"All Passed"| == 10 && |"Partially Passed"| == 16 && |"Failed"| == 6 && |"Pending"| == 7;
    match status
    case Passed => "All Passed"
    case Partial => "Partially Passed"
    case Failed => "Failed"
    case Pending => "Pending"
    case Running => "Pending"
  }

  /** What the header shows next to its title. */
  datatype Header = Nothing | Busy | Count(passed: nat, total: nat)

  /** The header: nothing without a result, a spinner while the overall status is
      running, otherwise "passed/total Passed". */
  function HeaderOf(result: Option<ExecutionResult>, testCases: seq<TestCase>): (h: Header)
    ensures h == Nothing <==> result.None?
    ensures h == Busy <==> result.Some? && result.value.overallStatus == Running
    ensures h.Count? ==> h.passed == PassedCount(result) && h.total == |testCases|
  {
    match result
    case None => Nothing
    case Some(r) => if r.overallStatus == Running then Busy else Count(PassedCount(result), TotalCount(testCases))
  }

  /** The execution summary sits inside the block guarded by `testCases[activeTab]`,
      with the first tab active: it is shown only when there is a test case, a result
      and no run in progress. */
  predicate ShowSummary(testCases: seq<TestCase>, result: Option<ExecutionResult>, isRunning: bool) {
    |testCases| > 0 && result.Some? && !isRunning
  }

  /** The summary never shows without the header's passed/total or running figure
      above it, and never while the header reads "Running". */
  lemma SummaryBesideHeader(testCases: seq<TestCase>, result: Option<ExecutionResult>, isRunning: bool)
    requires ShowSummary(testCases, result, isRunning)
    ensures !HeaderOf(result, testCases).Nothing?
    ensures result.value.overallStatus != Running ==> HeaderOf(result, testCases) == Count(PassedCount(result), |testCases|)
  {
  }

  // ---------------------------------------------------------------------------
  // Pairing test cases with results

  /** The first result case with the given id. */
  function FindById(cases: seq<CaseResult>, id: int): (r: Option<CaseResult>)
    ensures r.None? <==> forall i :: 0 <= i < |cases| ==> cases[i].id != id
    ensures r.Some? ==> exists i :: 0 <= i < |cases| && cases[i] == r.value && r.value.id == id
                                    && forall j :: 0 <= j < i ==> cases[j].id != id
    decreases |cases|
  {
    if cases == [] then None
    else if cases[0].id == id then Some(cases[0])
    else
      var r := FindById(cases[1..], id);
      assert forall i :: 1 <= i < |cases| ==> cases[i] == cases[1..][i - 1];
      assert r.Some? ==> exists i :: 1 <= i < |cases| && cases[i] == r.value && r.value.id == id
                                     && forall j :: 0 <= j < i ==> cases[j].id != id;
      r
  }

  /** `executionResult?.testCases.find(tc => tc.id === testCase.id)`: the first result
      case with the test case's id. A test case without an id pairs with nothing. */
  function ResultFor(result: Option<ExecutionResult>, testCase: TestCase): (r: Option<CaseResult>)
    ensures r.Some? ==> result.Some? && testCase.id == Some(r.value.id) && r.value in result.value.testCases
    ensures r.None? <==> result.None? || testCase.id.None?
                         || forall c :: c in result.value.testCases ==> c.id != testCase.id.value
    ensures result.Some? && testCase.id.Some? ==> r == FindById(result.value.testCases, testCase.id.value)
    ensures r.Some? ==> exists i :: 0 <= i < |result.value.testCases| && result.value.testCases[i] == r.value
                                    && forall j :: 0 <= j < i ==> result.value.testCases[j].id != r.value.id
  {
    if result.None? || testCase.id.None? then None
    else FindById(result.value.testCases, testCase.id.value)
  }

  /** The icon of a test-case tab: the clock exactly when the case has no paired
      result, and otherwise the paired result's status. */
  function TabIcon(result: Option<ExecutionResult>, testCase: TestCase): (icon: Icon)
    ensures icon == ClockIcon <==> ResultFor(result, testCase).None?
    ensures ResultFor(result, testCase).Some? ==> icon == StatusIcon(Some(ResultFor(result, testCase).value.status))
  {
    var paired := ResultFor(result, testCase);
    StatusIcon(if paired.Some? then Some(paired.value.status) else None)
  }
}
