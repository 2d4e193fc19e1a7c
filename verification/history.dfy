/** Filters and orderings over the attempt history that several views share:
    `filter(a => a.examId === id)`, `filter(a => a.isCompleted)` and the
    descending `sort` by a timestamp. */
module History {
  import opened Types

  /** Which timestamp an ordering compares. */
  datatype TimeField = StartTime | EndTime

  /** `new Date(a.<field>).getTime()`; an absent end time is read as 0. */
  function TimeOf(a: ExamAttempt, f: TimeField): int {
    match f
    case StartTime => a.startTime
    case EndTime => a.endTime.GetOr(0)
  }

  /** `attempts.filter(a => a.examId === examId)`: exactly the attempts of that exam, each
      as often as in the input. */
  function ForExam(attempts: seq<ExamAttempt>, examId: string): (r: seq<ExamAttempt>)
    ensures forall a :: multiset(r)[a] == if a.examId == examId then multiset(attempts)[a] else 0
    ensures forall a :: a in r <==> a in attempts && a.examId == examId
  {
    if attempts == [] then []
    else
      var rest := ForExam(attempts[1..], examId);
      assert attempts == [attempts[0]] + attempts[1..];
      if attempts[0].examId == examId then [attempts[0]] + rest else rest
  }

  /** `attempts.filter(a => a.isCompleted)`: exactly the completed attempts, each as often
      as in the input. */
  function Completed(attempts: seq<ExamAttempt>): (r: seq<ExamAttempt>)
    ensures forall a :: multiset(r)[a] == if a.isCompleted then multiset(attempts)[a] else 0
    ensures forall a :: a in r <==> a in attempts && a.isCompleted
  {
    if attempts == [] then []
    else
      var rest := Completed(attempts[1..]);
      assert attempts == [attempts[0]] + attempts[1..];
      if attempts[0].isCompleted then [attempts[0]] + rest else rest
  }

  /** The filter distributes over appending one attempt. */
  lemma {:induction false} ForExamAppend(attempts: seq<ExamAttempt>, a: ExamAttempt, examId: string)
    ensures ForExam(attempts + [a], examId)
         == ForExam(attempts, examId) + (if a.examId == examId then [a] else [])
  {
    var s := attempts + [a];
    if attempts == [] {
      assert s == [a] && s[1..] == [];
    } else {
      assert s[0] == attempts[0];
      assert s[1..] == attempts[1..] + [a];
      ForExamAppend(attempts[1..], a, examId);
      if attempts[0].examId == examId {
        AppendAssoc([attempts[0]], ForExam(attempts[1..], examId), if a.examId == examId then [a] else []);
      }
    }
  }

  /** The completion filter distributes over appending one attempt. */
  lemma {:induction false} CompletedAppend(attempts: seq<ExamAttempt>, a: ExamAttempt)
    ensures Completed(attempts + [a]) == Completed(attempts) + (if a.isCompleted then [a] else [])
  {
    var s := attempts + [a];
    if attempts == [] {
      assert s == [a] && s[1..] == [];
    } else {
      assert s[0] == attempts[0];
      assert s[1..] == attempts[1..] + [a];
      CompletedAppend(attempts[1..], a);
      if attempts[0].isCompleted {
        AppendAssoc([attempts[0]], Completed(attempts[1..]), if a.isCompleted then [a] else []);
      }
    }
  }

  lemma AppendAssoc(x: seq<ExamAttempt>, y: seq<ExamAttempt>, z: seq<ExamAttempt>)
    ensures x + (y + z) == (x + y) + z
  {
  }

  /** Later time first. */
  ghost predicate Descending(s: seq<ExamAttempt>, f: TimeField) {
    forall i, j :: 0 <= i < j < |s| ==> TimeOf(s[i], f) >= TimeOf(s[j], f)
  }

  /** Inserts x before the first element that is not later than it. */
  function Insert(x: ExamAttempt, s: seq<ExamAttempt>, f: TimeField): (r: seq<ExamAttempt>)
    ensures multiset(r) == multiset(s) + multiset{x}
    ensures |r| == |s| + 1
    ensures r[0] == x || (s != [] && r[0] == s[0])
  {
    if s == [] || TimeOf(x, f) >= TimeOf(s[0], f) then [x] + s
    else
      assert s == [s[0]] + s[1..];
      [s[0]] + Insert(x, s[1..], f)
  }

  lemma {:induction false} InsertDescending(x: ExamAttempt, s: seq<ExamAttempt>, f: TimeField)
    requires Descending(s, f)
    ensures Descending(Insert(x, s, f), f)
  {
    if s != [] && TimeOf(x, f) < TimeOf(s[0], f) {
      var rest := Insert(x, s[1..], f);
      InsertDescending(x, s[1..], f);
      assert Insert(x, s, f) == [s[0]] + rest;
      assert TimeOf(rest[0], f) <= TimeOf(s[0], f);
      forall j | 0 <= j < |rest| ensures TimeOf(rest[j], f) <= TimeOf(s[0], f) {
        if j > 0 { assert TimeOf(rest[0], f) >= TimeOf(rest[j], f); }
      }
    }
  }

  /** `[...attempts].sort((a, b) => time(b) - time(a))`: latest first; the result
      holds the same attempts and is ordered by the time, non-increasing. */
  function SortDescending(attempts: seq<ExamAttempt>, f: TimeField): (r: seq<ExamAttempt>)
    ensures multiset(r) == multiset(attempts)
    ensures |r| == |attempts|
    ensures Descending(r, f)
  {
    if attempts == [] then []
    else
      assert attempts == [attempts[0]] + attempts[1..];
      InsertDescending(attempts[0], SortDescending(attempts[1..], f), f);
      Insert(attempts[0], SortDescending(attempts[1..], f), f)
  }

  /** The head of a descending order is at least as late as every attempt it holds. */
  lemma HeadIsLatest(s: seq<ExamAttempt>, f: TimeField)
    requires Descending(s, f) && s != []
    ensures forall a :: a in s ==> TimeOf(a, f) <= TimeOf(s[0], f)
  {
    forall a | a in s ensures TimeOf(a, f) <= TimeOf(s[0], f) {
      var k :| 0 <= k < |s| && s[k] == a;
      if k > 0 {
        assert TimeOf(s[0], f) >= TimeOf(s[k], f);
      }
    }
  }

  /** The head of the descending order holds an attempt of the list that no other
      attempt of it is later than. */
  lemma LatestFacts(attempts: seq<ExamAttempt>, f: TimeField)
    requires attempts != []
    ensures SortDescending(attempts, f)[0] in attempts
    ensures forall a :: a in attempts ==> TimeOf(a, f) <= TimeOf(SortDescending(attempts, f)[0], f)
  {
    var sorted := SortDescending(attempts, f);
    assert sorted[0] in multiset(sorted);
    HeadIsLatest(sorted, f);
    forall a | a in attempts ensures TimeOf(a, f) <= TimeOf(sorted[0], f) {
      assert a in multiset(attempts);
      assert a in multiset(sorted);
    }
  }

  /** `[...].sort(latest first)[0]`: the first attempt of the descending order, which
      is one of the attempts and at least as late as all of them; none for no
      attempts. */
  function Latest(attempts: seq<ExamAttempt>, f: TimeField): (r: Option<ExamAttempt>)
    ensures r.None? <==> attempts == []
    ensures r.Some? ==> r.value in attempts && forall a :: a in attempts ==> TimeOf(a, f) <= TimeOf(r.value, f)
    ensures r.Some? ==> r.value == SortDescending(attempts, f)[0]
  {
    var sorted := SortDescending(attempts, f);
    if sorted == [] then None
    else
      LatestFacts(attempts, f);
      Some(sorted[0])
  }
}
