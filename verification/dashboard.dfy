/** The dashboard's figures (src/components/Dashboard/Dashboard.tsx): completed
    attempts, the average score, the active exams and the time-spent estimate. */
module Dashboard {
  import opened Types
  import opened History
  import Numbers
  import ExamContext

  /** `completedExams`: the completed attempts (see `History.Completed`). */
  function CompletedExams(attempts: seq<ExamAttempt>): (done: seq<ExamAttempt>)
    ensures forall a :: a in done <==> a in attempts && a.isCompleted
    ensures |done| <= |attempts|
  {
    CompletedBelow(attempts);
    Completed(attempts)
  }

  lemma {:induction false} CompletedBelow(attempts: seq<ExamAttempt>)
    ensures |Completed(attempts)| <= |attempts|
    decreases |attempts|
  {
    if attempts != [] {
      CompletedBelow(attempts[1..]);
    }
  }

  /** `reduce((sum, a) => sum + (a.score || 0), 0)`. */
  function SumScores(attempts: seq<ExamAttempt>): real
    decreases |attempts|
  {
    if attempts == [] then 0.0
    else SumScores(attempts[..|attempts| - 1]) + ScoreOrZero(attempts[|attempts| - 1])
  }

  /** `avgScore`: 0 with nothing completed, otherwise the mean of the completed scores
      (an absent score counting as 0). */
  function AvgScore(attempts: seq<ExamAttempt>): (avg: real)
    ensures |CompletedExams(attempts)| == 0 ==> avg == 0.0
  {
    Mean(CompletedExams(attempts))
  }

  /** The mean score of a list of attempts, 0 for none. */
  function Mean(done: seq<ExamAttempt>): real {
    if |done| > 0 then SumScores(done) / |done| as real else 0.0
  }

  /** Every score lies between bounds. */
  ghost predicate ScoresWithin(attempts: seq<ExamAttempt>, lo: real, hi: real) {
    forall i :: 0 <= i < |attempts| ==> lo <= ScoreOrZero(attempts[i]) <= hi
  }

  lemma {:induction false} SumWithin(attempts: seq<ExamAttempt>, lo: real, hi: real)
    requires ScoresWithin(attempts, lo, hi)
    ensures |attempts| as real * lo <= SumScores(attempts) <= |attempts| as real * hi
    decreases |attempts|
  {
    if attempts != [] {
      var init := attempts[..|attempts| - 1];
      assert ScoresWithin(init, lo, hi);
      SumWithin(init, lo, hi);
    }
  }

  /** A mean of n values between bounds lies between them. */
  lemma MeanWithin(sum: real, n: real, lo: real, hi: real)
    requires n > 0.0 && n * lo <= sum <= n * hi
    ensures lo <= sum / n <= hi
  {
    assert (sum / n) * n == sum;
  }

  lemma CompletedScoresWithin(attempts: seq<ExamAttempt>, lo: real, hi: real)
    requires forall a :: a in attempts && a.isCompleted ==> lo <= ScoreOrZero(a) <= hi
    ensures ScoresWithin(CompletedExams(attempts), lo, hi)
  {
    var done := CompletedExams(attempts);
    forall i | 0 <= i < |done| ensures lo <= ScoreOrZero(done[i]) <= hi {
      assert done[i] in done;
    }
  }

  /** The mean of scores between bounds lies between them. */
  lemma MeanOfScoresWithin(scores: seq<ExamAttempt>, lo: real, hi: real)
    requires |scores| > 0 && ScoresWithin(scores, lo, hi)
    ensures lo <= SumScores(scores) / |scores| as real <= hi
  {
    SumWithin(scores, lo, hi);
    MeanWithin(SumScores(scores), |scores| as real, lo, hi);
  }

  /** The average lies between the lowest and the highest completed score. */
  lemma AverageWithinScores(attempts: seq<ExamAttempt>, lo: real, hi: real)
    requires |CompletedExams(attempts)| > 0
    requires forall a :: a in attempts && a.isCompleted ==> lo <= ScoreOrZero(a) <= hi
    ensures lo <= AvgScore(attempts) <= hi
  {
    CompletedScoresWithin(attempts, lo, hi);
    MeanOfScoresWithin(CompletedExams(attempts), lo, hi);
  }

  /** The running-mean identity on plain reals: with avg the mean of n values summing
      to sum (0 when n is 0), the mean after adding s is (n * avg + s) / (n + 1). */
  lemma RunningMean(sum: real, n: real, avg: real, s: real)
    requires n >= 0.0
    requires n == 0.0 ==> sum == 0.0 && avg == 0.0
    requires n > 0.0 ==> avg == sum / n
    ensures (sum + s) / (n + 1.0) == (n * avg + s) / (n + 1.0)
  {
    if n > 0.0 {
      assert n * avg == sum;
    }
  }

  /** Adding one attempt to a list moves its mean as a running mean. */
  lemma MeanAfterAppend(done: seq<ExamAttempt>, c: ExamAttempt)
    ensures Mean(done + [c]) == RunningAvg(|done|, Mean(done), ScoreOrZero(c))
  {
    var done' := done + [c];
    assert done'[..|done'| - 1] == done;
    var sum := SumScores(done);
    assert Mean(done') == (sum + ScoreOrZero(c)) / (|done| as real + 1.0);
    RunningMean(sum, |done| as real, Mean(done), ScoreOrZero(c));
  }

  /** Appending a completed attempt (as `submitExam` does) moves the average as a
      running mean: with score s after n completed attempts it becomes
      (n * average + s) / (n + 1). */
  lemma AvgAfterCompleted(attempts: seq<ExamAttempt>, c: ExamAttempt)
    requires c.isCompleted
    ensures AvgScore(attempts + [c]) == RunningAvg(|CompletedExams(attempts)|, AvgScore(attempts), ScoreOrZero(c))
  {
    var done := CompletedExams(attempts);
    AvgAppendCompleted(attempts, c);
    MeanAfterAppend(done, c);
  }

  /** A completed attempt joins the list the average is taken over. */
  lemma AvgAppendCompleted(attempts: seq<ExamAttempt>, c: ExamAttempt)
    requires c.isCompleted
    ensures AvgScore(attempts + [c]) == Mean(CompletedExams(attempts) + [c])
  {
    CompletedAppend(attempts, c);
  }

  /** The mean of n values whose mean is avg, once one more value s joins them. */
  function RunningAvg(n: nat, avg: real, s: real): real {
    (n as real * avg + s) / (n as real + 1.0)
  }

  /** Appending an attempt that is not completed leaves the average alone. */
  lemma AvgAfterOpen(attempts: seq<ExamAttempt>, c: ExamAttempt)
    requires !c.isCompleted
    ensures AvgScore(attempts + [c]) == AvgScore(attempts)
  {
    var done := CompletedExams(attempts);
    CompletedAppend(attempts, c);
    assert CompletedExams(attempts + [c]) == done + [];
    assert done + [] == done;
  }

  /** After `submitExam` appends the scored attempt, the dashboard's average is the
      running mean with that score. */
  lemma AvgAfterSubmit(attempts: seq<ExamAttempt>, current: ExamAttempt, now: int, score: real)
    ensures AvgScore(attempts + [ExamContext.Finalize(current, now, score)])
         == RunningAvg(|CompletedExams(attempts)|, AvgScore(attempts), score)
  {
    var c := ExamContext.Finalize(current, now, score);
    assert c.isCompleted && ScoreOrZero(c) == score;
    AvgAfterCompleted(attempts, c);
  }

  /** The average shown: `Math.round(avgScore)`. */
  function AverageShown(attempts: seq<ExamAttempt>): (shown: int)
    ensures shown as real - 0.5 <= AvgScore(attempts) < shown as real + 0.5
  {
    Numbers.Round(AvgScore(attempts))
  }

  /** `sub` is `s` with some elements left out, the rest kept in order: each element
      of `sub` is matched, left to right, with the first equal element of `s` not yet
      passed. */
  ghost predicate Subsequence<T>(sub: seq<T>, s: seq<T>)
    decreases |s|
  {
    if sub == [] then true
    else if s == [] then false
    else if sub[0] == s[0] then Subsequence(sub[1..], s[1..])
    else Subsequence(sub, s[1..])
  }

  /** The number of active exams in a catalog, counted one exam at a time. */
  function CountActive(exams: seq<Exam>): (n: nat)
    ensures n <= |exams|
    decreases |exams|
  {
    if exams == [] then 0
    else CountActive(exams[1..]) + if exams[0].isActive then 1 else 0
  }

  /** `exams.filter(e => e.isActive)`: the cards listed are exactly the active exams,
      each as often as in the catalog, so as many as there are active exams
      (`ActiveExamsInOrder` adds: in catalog order). */
  function ActiveExams(exams: seq<Exam>): (active: seq<Exam>)
    ensures forall e :: multiset(active)[e] == if e.isActive then multiset(exams)[e] else 0
    ensures forall e :: e in active <==> e in exams && e.isActive
    ensures |active| == CountActive(exams) <= |exams|
    decreases |exams|
  {
    if exams == [] then []
    else
      var rest := ActiveExams(exams[1..]);
      assert exams == [exams[0]] + exams[1..];
      if exams[0].isActive then [exams[0]] + rest else rest
  }

  /** The cards keep the catalog's order: the active exams are the catalog with the
      inactive ones left out. */
  lemma {:induction false} ActiveExamsInOrder(exams: seq<Exam>)
    ensures Subsequence(ActiveExams(exams), exams)
    decreases |exams|
  {
    if exams != [] {
      var rest := ActiveExams(exams[1..]);
      ActiveExamsInOrder(exams[1..]);
      assert exams == [exams[0]] + exams[1..];
      if exams[0].isActive {
        assert ActiveExams(exams) == [exams[0]] + rest;
        SubsequenceKeep(rest, exams[0], exams[1..]);
      } else {
        assert ActiveExams(exams) == rest;
        SubsequenceSkip(rest, exams[0], exams[1..]);
      }
    }
  }

  /** Keeping a common first element keeps a subsequence. */
  lemma SubsequenceKeep<T>(sub: seq<T>, x: T, s: seq<T>)
    requires Subsequence(sub, s)
    ensures Subsequence([x] + sub, [x] + s)
  {
  }

  /** Skipping an element the subsequence does not hold keeps a subsequence. */
  lemma SubsequenceSkip<T>(sub: seq<T>, x: T, s: seq<T>)
    requires Subsequence(sub, s) && x !in sub
    ensures Subsequence(sub, [x] + s)
  {
  }

  /** `activeExams.length`: the "Available Exams" figure is the number of cards listed,
      which is the number of active exams in the catalog. */
  function AvailableCount(exams: seq<Exam>): (n: nat)
    ensures n == |ActiveExams(exams)| && n <= |exams|
    ensures n == CountActive(exams)
  {
    |ActiveExams(exams)|
  }

  /** Every exam is active exactly when the count is the whole catalog, and none is
      exactly when the count is 0. */
  lemma {:induction false} CountAllOrNone(exams: seq<Exam>)
    ensures CountActive(exams) == |exams| <==> forall i :: 0 <= i < |exams| ==> exams[i].isActive
    ensures CountActive(exams) == 0 <==> forall i :: 0 <= i < |exams| ==> !exams[i].isActive
    decreases |exams|
  {
    if exams != [] {
      var tail := exams[1..];
      CountAllOrNone(tail);
      assert forall i :: 1 <= i < |exams| ==> exams[i] == tail[i - 1];
    }
  }

  /** The figure is the whole catalog exactly when every exam is active, and 0 exactly
      when none is. */
  lemma AvailableAllOrNone(exams: seq<Exam>)
    ensures AvailableCount(exams) == |exams| <==> forall i :: 0 <= i < |exams| ==> exams[i].isActive
    ensures AvailableCount(exams) == 0 <==> forall i :: 0 <= i < |exams| ==> !exams[i].isActive
  {
    CountAllOrNone(exams);
  }

  /** "Total Time Spent": `Math.round(completed * 1.2)` hours, a fixed estimate per
      completed attempt rather than a measured duration. */
  function TotalTimeHours(attempts: seq<ExamAttempt>): (hours: int)
    ensures hours as real - 0.5 <= |CompletedExams(attempts)| as real * 1.2 < hours as real + 0.5
  {
    Numbers.Round(|CompletedExams(attempts)| as real * 1.2)
  }

  /** The estimate only grows with the number of completed attempts. */
  lemma TotalTimeMonotone(a1: seq<ExamAttempt>, a2: seq<ExamAttempt>)
    requires |CompletedExams(a1)| <= |CompletedExams(a2)|
    ensures TotalTimeHours(a1) <= TotalTimeHours(a2)
  {
    Numbers.RoundMonotone(|CompletedExams(a1)| as real * 1.2, |CompletedExams(a2)| as real * 1.2);
  }
}
