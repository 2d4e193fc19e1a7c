# Exam client — a Dafny model

This project models the browser client of a small exam platform: a React application
in which a user picks an exam on a dashboard, answers multiple-choice and coding
questions against a countdown, runs code against a remote judge, submits, and reads
the results. The model covers the application's own logic:

- the exam state shared by the screens (`src/context/ExamContext.tsx`): the
  catalog, the exam and attempt in progress, the attempt history, and the scoring at
  submission;
- the exam screen (`ExamInterface.tsx`): starting an attempt from the route,
  recording an answer, navigation, progress, the exit warning, and the automatic
  submission when time runs out;
- the countdown (`Timer.tsx`), the question navigator, the multiple-choice buttons,
  the coding panel with its per-language code and judge runs, the editor's theme,
  reset and download name, the test-case panel, and the fullscreen guard;
- the dashboard (cards, averages, recent results) and the results page.

Each source file has one Dafny module of the same name. Three more modules hold
shared parts:

- `Types` holds the records of `src/types/index.ts` and a small model of the
  JavaScript values the code compares.
- `History` holds the filtering and the latest-first ordering of attempts that
  several screens repeat.
- `Numbers` holds `Math.round`.

The way the source works is kept:

- State that a component or the context updates in place is a Dafny `class` whose
  methods name what they modify: `ExamContext.ExamSession`,
  `ExamInterface.ExamScreen`, `Timer.Countdown`, `CodingQuestion.CodingPanel` and
  `FullscreenHandler.FullscreenGuard`.
- The score loop of `submitExam` is a method with a loop, `ExamContext.ComputeScore`.
- Everything a screen only computes from its inputs is a function, with lemmas
  relating it to the rest.

JavaScript values are modelled as follows:

- An answer is a JavaScript value: undefined, null, a number, a string, a boolean or
  an object.
- A missing key reads as undefined.
- `===` against an optional correct answer is `Types.StrictEqualsOptional`.
- `userAnswer` used as a condition is `Types.Truthy`.
- Scores and averages are exact reals.
- `Math.round(x)` is ⌊x + 0.5⌋.
- Times are integer milliseconds.
- Exam durations are whole minutes.

Random attempt identifiers, the current time, the judge's reply and the
`prefers-color-scheme` query are parameters of the operations that use them.

Where the written description of the system and the code differ, the model follows
the code:

- Starting an exam does not check the attempt limit. Only the dashboard card
  withholds the start button (`ExamCard.HandleStartExam`). A route opened directly
  starts another attempt.
- The countdown calls `onTimeUp` on every tick once it has reached zero
  (`Timer.Deadline` counts the calls). The screen submits once, because its effect
  runs only when `timeUp` changes (`ExamInterface.ExamScreen.TimeUp`).
- A run's overall status is copied from the judge's reply, not computed from the
  cases. A judge error reads as a failed run with no cases
  (`CodingQuestion.Outcome`).
- Nothing records violations. The guard only cancels five shortcuts and keeps the
  fullscreen flag.
- A second run while one is in flight is prevented only by disabling the button.
- The figure the results page and the dashboard show with a '%' sign is the raw
  score, rounded. It is a percentage only when the exam's points sum to 100.

The model also makes some behaviour of the code explicit:

- The exam screen renders the coding question without an answer callback
  (`ExamInterface.tsx` lines 196-200). Code written for a coding question is never
  recorded as an answer through the interface, so it scores only if an answer was
  set some other way (`ExamContext.CodingCreditIsTruthiness`).
- Changing the language first restores the code written for it, but the editor's
  reset effect on the language change then overwrites it with the template
  (`CodingQuestion.CodingPanel.SwitchLanguage`).
- A change of question keeps the selected language, and the editor's reset on that
  change replaces the language's code with the new question's template
  (`CodingQuestion.CodingPanel.ChangeQuestion`).
- The navigator's progress counts every recorded key, so it can exceed the number of
  questions shown as answered (`QuestionNavigator.ProgressMayExceedAnswered`).
- The test panel's "passed" count can exceed its "total"
  (`TestCasesPanel.PassedMayExceedTotal`).
- An unanswered multiple-choice question whose correct answer is absent earns its
  points, because `undefined === undefined`
  (`ExamContext.UnansweredMcqWithoutKeyScores`).

## Model

| member | source | states |
|---|---|---|
| Types.AnswerOf | src/context/ExamContext.tsx:85 | reading an answer by question id gives the stored value, or undefined when the key is missing |
| Types.RecordGet | src/components/Exam/CodeEditor.tsx:63 | a template lookup is absent exactly when no entry has the key, and otherwise returns the value of an entry with that key |
| Types.Truthy | src/context/ExamContext.tsx:89 | JavaScript truthiness: undefined, null, 0, "" and false are falsy, everything else truthy |
| Types.StrictEqualsOptional | src/context/ExamContext.tsx:86 | `===` against an optional number: an absent property equals only undefined, a present one only that number |
| Types.ScoreOrZero | src/components/Dashboard/Dashboard.tsx:14 | the score, 0 when absent |
| Types.RecordKeys | src/components/Exam/CodingQuestion.tsx:15 | `Object.keys` gives one key per entry, in entry order |
| Numbers.Round | src/components/Results/ExamResults.tsx:34 | `Math.round` lands within half a unit of its argument (halves round up) |
| Numbers.RoundMonotone | src/components/Dashboard/Dashboard.tsx:32 | rounding never reverses an order |
| History.ForExam | src/components/Dashboard/ExamCard.tsx:15 | the filter by exam keeps exactly the attempts of that exam, each as often as in the input |
| History.Completed | src/components/Dashboard/Dashboard.tsx:12 | the filter by completion keeps exactly the completed attempts, each as often as in the input |
| History.CompletedAppend | src/components/Dashboard/Dashboard.tsx:12 | filtering by completion after appending an attempt is the filtered history followed by that attempt when it is completed |
| History.ForExamAppend | src/context/ExamContext.tsx:101 | filtering by exam after appending an attempt is the filtered history followed by that attempt when it is for the exam |
| History.Insert | src/components/Results/ExamResults.tsx:10-13 | one insertion step of the sort adds exactly the element |
| History.InsertDescending | src/components/Results/ExamResults.tsx:10-13 | inserting keeps a latest-first list latest-first |
| History.SortDescending | src/components/Dashboard/RecentResults.tsx:13-16 | the sort by time, latest first, is a permutation of its input and is ordered latest first |
| History.HeadIsLatest | src/components/Dashboard/ExamCard.tsx:17-19 | the head of a latest-first list is no earlier than any element |
| History.LatestFacts | src/components/Dashboard/ExamCard.tsx:17-19 | the head of the sorted attempts is one of them and is no earlier than any of them |
| History.Latest | src/components/Results/ExamResults.tsx:10-14 | `sort(...)[0]`: nothing for no attempts, otherwise an attempt from the input that none is later than, the head of the sort |
| ExamContext.Score | src/context/ExamContext.tsx:83-92 | the score: the questions' credits added in order |
| ExamContext.McqPoints | src/context/ExamContext.tsx:86-88 | the points of the multiple-choice questions |
| ExamContext.CodingPoints | src/context/ExamContext.tsx:89-90 | the points of the coding questions |
| ExamContext.Credit | src/context/ExamContext.tsx:85-91 | a question with non-negative points earns between 0 and its points |
| ExamContext.ComputeScore | src/context/ExamContext.tsx:83-92 | the score loop computes the sum of the questions' credits |
| ExamContext.ScoreIsSumOfCredits | src/context/ExamContext.tsx:83-92 | the score of two question lists is the sum of their scores, and a single question's score is its credit |
| ExamContext.ScoreBounds | src/context/ExamContext.tsx:83-92 | with non-negative points the score is at least 0 and at most the multiple-choice points plus 0.8 of the coding points |
| ExamContext.ScoreReadsOnlyQuestionIds | src/context/ExamContext.tsx:85 | the score depends only on the answers stored under the exam's own question ids |
| ExamContext.UnansweredMcqWithoutKeyScores | src/context/ExamContext.tsx:86 | an unanswered multiple-choice question without a correct answer earns its points; an answer of null does not |
| ExamContext.CodingCreditIsTruthiness | src/context/ExamContext.tsx:89-90 | a coding question earns 0.8 of its points exactly when its answer is truthy, whatever the code |
| ExamContext.FirstWithId | src/context/ExamContext.tsx:51 | the search returns the first index with the id from a position on, or none when no later exam has it |
| ExamContext.FindExam | src/context/ExamContext.tsx:51-52 | `exams.find`: nothing exactly when no exam has the id, otherwise the first exam with it |
| ExamContext.NewAttempt | src/context/ExamContext.tsx:54-61 | a new attempt is for the exam, starts now, has no answers, no end time and no score, and is not completed |
| ExamContext.Finalize | src/context/ExamContext.tsx:94-99 | a completed attempt keeps its identity, start and answers and gains the end time, the score and the completed flag |
| ExamContext.ExamSession.constructor | src/context/ExamContext.tsx:28-38 | the session starts idle with no catalog and the stored history (empty when nothing is stored) |
| ExamContext.ExamSession.LoadCatalog | src/context/ExamContext.tsx:39-47 | the catalog becomes the fetched exams, and stays as it was when the fetch fails |
| ExamContext.ExamSession.StartExam | src/context/ExamContext.tsx:50-65 | an unknown id changes nothing; a known one makes that exam current with a fresh attempt, without consulting the attempt limit |
| ExamContext.ExamSession.SubmitAnswer | src/context/ExamContext.tsx:67-78 | without an attempt nothing changes; otherwise the answer is stored under the question id and every other answer is unchanged |
| ExamContext.ExamSession.SubmitExam | src/context/ExamContext.tsx:80-108 | without an exam and attempt nothing changes; otherwise the scored, completed attempt is appended to the history, persisted, and the session returns to idle out of fullscreen; a history of completed attempts stays so |
| ExamContext.ExamSession.SetIsFullscreen | src/context/ExamContext.tsx:32 | the fullscreen flag takes the value given |
| ExamContext.SubmitTwice | src/context/ExamContext.tsx:80-108 | two submissions in a row add at most one attempt and keep the earlier history as a prefix |
| ExamInterface.PreviousIndex | src/components/Exam/ExamInterface.tsx:207-211 | `Math.max(0, i - 1)` |
| ExamInterface.NextIndex | src/components/Exam/ExamInterface.tsx:219-226 | `Math.min(length - 1, i + 1)` |
| ExamInterface.NavigationStaysInRange | src/components/Exam/ExamInterface.tsx:205-233 | Previous and Next stay within the questions, move by at most one, and stay put exactly on the first and the last question |
| ExamInterface.Progress | src/components/Exam/ExamInterface.tsx:81 | the progress is above 0 and at most 100 for a valid index, and 100 exactly on the last question |
| ExamInterface.ProgressMonotone | src/components/Exam/ExamInterface.tsx:81 | a later question never shows less progress, before or after rounding |
| ExamInterface.ExamScreen.CurrentQuestion | src/components/Exam/ExamInterface.tsx:80 | the current question is one of the current exam's questions |
| ExamInterface.ExamScreen.CurrentAnswer | src/components/Exam/ExamInterface.tsx:63-67 | `getCurrentAnswer`: undefined without an exam or attempt, otherwise the answer stored under the current question's id |
| ExamInterface.ExamScreen.constructor | src/components/Exam/ExamInterface.tsx:25-27 | the screen starts on the first question with no warning, no time-up and no navigation, and its invariant holds |
| ExamInterface.ExamScreen.StartEffect | src/components/Exam/ExamInterface.tsx:29-38 | with a route id and no current exam, an unknown id navigates home and a known one starts the exam; otherwise nothing changes |
| ExamInterface.ExamScreen.HandleAnswerChange | src/components/Exam/ExamInterface.tsx:46-51 | the answer is stored under the current question's id, and the current answer then reads back as it |
| ExamInterface.ExamScreen.HandleSubmitExam | src/components/Exam/ExamInterface.tsx:53-57 | the warning closes, the attempt is submitted as by `submitExam`, and the screen navigates to the results |
| ExamInterface.ExamScreen.HandleExitAttempt | src/components/Exam/ExamInterface.tsx:59-61 | the exit warning opens |
| ExamInterface.ExamScreen.ContinueExam | src/components/Exam/ExamInterface.tsx:101-106 | the exit warning closes |
| ExamInterface.ExamScreen.Previous | src/components/Exam/ExamInterface.tsx:205-216 | the index moves to `max(0, i - 1)` and stays within the questions |
| ExamInterface.ExamScreen.Next | src/components/Exam/ExamInterface.tsx:218-233 | the index moves to `min(length - 1, i + 1)` and stays within the questions |
| ExamInterface.ExamScreen.SelectQuestion | src/components/Exam/ExamInterface.tsx:157-162 | choosing a question in the navigator makes it the current question |
| ExamInterface.ExamScreen.TimeUp | src/components/Exam/ExamInterface.tsx:40-44 | the first time-up with an exam in progress appends the finalized, scored attempt to the history, persists it, leaves fullscreen, hides the exit warning and goes to the results; a repeated time-up, or one without an exam, leaves the session, the warning and the route unchanged |
| ExamInterface.ExamScreen.TimerTick | src/components/Exam/ExamInterface.tsx:137-140 | a tick advances the countdown by one step; the tick that first signals time-up appends the finalized, scored attempt, hides the warning and goes to the results; any other tick leaves the session, the warning and the route unchanged |
| ExamInterface.TicksAfterDeadline | src/components/Exam/ExamInterface.tsx:40-44 | any number of ticks after time-up leave the session, the exit warning and the route unchanged |
| Timer.After | src/components/Exam/Timer.tsx:14-28 | the countdown's state after k ticks |
| Timer.TimeUpCalls | src/components/Exam/Timer.tsx:22-23 | how often the first k ticks call `onTimeUp`, never more than k |
| Timer.Step | src/components/Exam/Timer.tsx:14-28 | a tick decrements the time, stops at zero and signals time-up from the tick that reaches it; a warning once raised stays |
| Timer.Deadline | src/components/Exam/Timer.tsx:14-28 | after k ticks the time left is the duration minus k (never below 0), the warning is raised from 300 seconds, and `onTimeUp` has fired once for each tick from the deadline on |
| Timer.Countdown.constructor | src/components/Exam/Timer.tsx:10-11 | the countdown starts at the duration in seconds with no warning |
| Timer.Countdown.Tick | src/components/Exam/Timer.tsx:14-28 | the new time, warning and time-up signal are those of one step |
| Timer.StyleOf | src/components/Exam/Timer.tsx:45-49 | red in the last minute, amber in the last five minutes, neutral before |
| Timer.StyleEscalates | src/components/Exam/Timer.tsx:45-49 | as time runs down the style never becomes less urgent |
| Timer.DigitChar | src/components/Exam/Timer.tsx:40 | a digit is written as a character from '0' to '9' |
| Timer.Decimal | src/components/Exam/Timer.tsx:40-42 | a number's decimal form is made of digits only |
| Timer.PadStart2 | src/components/Exam/Timer.tsx:40 | `padStart(2, '0')` leaves strings of two or more characters alone and left-pads shorter ones with zeros to length 2 |
| Timer.FormatTime | src/components/Exam/Timer.tsx:34-43 | `formatTime`: the clock parts of the seconds written by the template literal |
| Timer.Clock | src/components/Exam/Timer.tsx:39-42 | `H:MM:SS` with hours, `M:SS` without |
| Timer.ClockParts | src/components/Exam/Timer.tsx:35-37 | hours, minutes and seconds recompose the total, with minutes and seconds below 60 and hours present exactly from 3600 seconds |
| Timer.Split | src/components/Exam/Timer.tsx:39-42 | splitting the display on ':' yields at least one field |
| Timer.ValueOfDecimal | src/components/Exam/Timer.tsx:40-42 | reading a number's decimal form gives the number back |
| Timer.ValueOfLeadingZero | src/components/Exam/Timer.tsx:40 | a leading zero does not change a field's value |
| Timer.SplitSingle | src/components/Exam/Timer.tsx:39-42 | a field without ':' splits into itself |
| Timer.SplitJoin | src/components/Exam/Timer.tsx:39-42 | splitting a field, ':' and a rest gives the field followed by the rest's fields |
| Timer.Field | src/components/Exam/Timer.tsx:40-42 | each displayed field, padded or not, is digits that read back as its number; a value below 60 pads to two characters |
| Timer.SplitThree | src/components/Exam/Timer.tsx:40 | the three-field display splits into its three fields |
| Timer.SplitTwo | src/components/Exam/Timer.tsx:42 | the two-field display splits into its two fields |
| Timer.ParseThree | src/components/Exam/Timer.tsx:40 | a three-field display reads back as hours, minutes and seconds |
| Timer.ParseTwo | src/components/Exam/Timer.tsx:42 | a two-field display reads back as minutes and seconds |
| Timer.ClockRoundTripHours | src/components/Exam/Timer.tsx:39-40 | with hours, the display `H:MM:SS` reads back as the total, with two-digit minutes and seconds |
| Timer.ClockRoundTripMinutes | src/components/Exam/Timer.tsx:42 | without hours, the display `M:SS` reads back as the total, with two-digit seconds |
| Timer.FormatTimeRoundTrip | src/components/Exam/Timer.tsx:34-43 | `formatTime(s)` reads back as exactly s seconds, in three fields from one hour and two below |
| ExamCard.AttemptCount | src/components/Dashboard/ExamCard.tsx:15 | the count is the number of attempts for the exam, completed or not |
| ExamCard.CountBelow | src/components/Dashboard/ExamCard.tsx:15 | no exam has more attempts than the history holds |
| ExamCard.CanTakeExam | src/components/Dashboard/ExamCard.tsx:16 | fewer attempts for the exam than it allows |
| ExamCard.CounterFlagged | src/components/Dashboard/ExamCard.tsx:48 | the counter is red exactly when the exam may not be taken again |
| ExamCard.HandleStartExam | src/components/Dashboard/ExamCard.tsx:21-25 | the card navigates to `/exam/<id>` exactly when fewer attempts were made than allowed |
| ExamCard.LastAttempt | src/components/Dashboard/ExamCard.tsx:17-19 | none without attempts for the exam, otherwise an attempt for it that no other attempt for it started after |
| ExamCard.LastScoreShown | src/components/Dashboard/ExamCard.tsx:55 | the last score is shown rounded, an absent score as 0 |
| ExamCard.SubmitCountsOnce | src/components/Dashboard/ExamCard.tsx:15 | appending an attempt raises its exam's count by one and leaves every other exam's count unchanged |
| ExamCard.SubmittedAttemptIsCounted | src/context/ExamContext.tsx:101 | a submitted attempt raises its exam's count on the card by one |
| ExamResults.LastCompleted | src/components/Results/ExamResults.tsx:10-30 | nothing exactly when no attempt is completed, otherwise a completed attempt that no completed attempt ended after |
| ExamResults.Percentage | src/components/Results/ExamResults.tsx:33-34 | the figure is the raw score rounded, 0 without a score |
| ExamResults.TotalQuestions | src/components/Results/ExamResults.tsx:35 | the exam's question count, 0 when the exam is not found |
| ExamResults.AnsweredQuestions | src/components/Results/ExamResults.tsx:36 | every recorded answer key is counted, as in the navigator's progress |
| ExamResults.DurationMinutes | src/components/Results/ExamResults.tsx:38-40 | the elapsed minutes rounded, 0 without an end time |
| ExamResults.MaxPoints | src/components/Results/ExamResults.tsx:120 | the sum of the questions' points |
| ExamResults.MaxPointsSplits | src/components/Results/ExamResults.tsx:120 | the maximum is the multiple-choice points plus the coding points |
| ExamResults.ScoreAtMostMax | src/components/Results/ExamResults.tsx:120 | with non-negative points the score is between 0 and the maximum shown beside it |
| ExamResults.NonNegativeCodingPoints | src/components/Results/ExamResults.tsx:120 | non-negative points give non-negative coding points |
| ExamResults.MaxShown | src/components/Results/ExamResults.tsx:120 | the maximum is the sum of the exam's points, 0 when the exam is not found |
| ExamResults.IsCorrect | src/components/Results/ExamResults.tsx:133-137 | a multiple-choice answer strictly equal to the correct one; for a coding question, any recorded answer |
| ExamResults.Icon | src/components/Results/ExamResults.tsx:143-149 | a check when correct, a red cross when answered but wrong, a gray cross when unanswered |
| ExamResults.McqCheckMatchesCredit | src/components/Results/ExamResults.tsx:133-137 | for a multiple-choice question worth points, the check shows exactly when the question earned its points |
| ExamResults.CodingCheckIsWeakerThanCredit | src/components/Results/ExamResults.tsx:133-137 | for a coding question, credit implies the check but an answer of 0 is checked and earns nothing |
| ExamResults.ScoreBand | src/components/Results/ExamResults.tsx:42-52 | green from 80, yellow from 60, red below |
| ExamResults.PerformanceOf | src/components/Results/ExamResults.tsx:54-60 | the message thresholds are 90, 80, 70 and 60 |
| ExamResults.Rank | src/components/Results/ExamResults.tsx:54-60 | the messages ordered from the lowest threshold to the highest |
| ExamResults.PerformanceMonotone | src/components/Results/ExamResults.tsx:54-60 | a higher percentage never gets a worse message, and the message agrees with the colour band |
| ExamResults.RetakeOffered | src/components/Results/ExamResults.tsx:185 | an exam was found and allows more attempts than were made for it |
| ExamResults.RetakeIsCanTake | src/components/Results/ExamResults.tsx:185 | the retake button shows exactly when the dashboard card allows the exam |
| ExamResults.ShownExam | src/components/Results/ExamResults.tsx:32 | `exams.find` by the last attempt's exam id: the first catalog exam with that id; none exactly when there is no last attempt or no catalog exam has the id |
| RecentResults.Recent | src/components/Dashboard/RecentResults.tsx:13-16 | at most five entries, the first ones of the completed attempts ordered latest end first, each completed and from the history |
| RecentResults.ShownAreLatest | src/components/Dashboard/RecentResults.tsx:13-16 | a completed attempt left out ended no later than any attempt shown |
| RecentResults.ShowPlaceholder | src/components/Dashboard/RecentResults.tsx:45 | the placeholder shows exactly when no attempt is completed |
| RecentResults.FirstIsResultsPageAttempt | src/components/Dashboard/RecentResults.tsx:13-16 | the first recent result is the attempt the results page shows |
| RecentResults.ExamTitle | src/components/Dashboard/RecentResults.tsx:18-21 | the found exam's title when non-empty, otherwise "Unknown Exam" |
| RecentResults.ScoreIcon | src/components/Dashboard/RecentResults.tsx:29-33 | the trend points up exactly from 60 |
| RecentResults.IconFollowsBand | src/components/Dashboard/RecentResults.tsx:23-33 | the trend points up exactly outside the red band |
| Dashboard.CompletedExams | src/components/Dashboard/Dashboard.tsx:12 | the completed attempts, exactly, and no more of them than attempts |
| Dashboard.AvgScore | src/components/Dashboard/Dashboard.tsx:13-15 | the average is 0 when nothing is completed |
| Dashboard.SumWithin | src/components/Dashboard/Dashboard.tsx:14 | the sum of n scores between two bounds lies between n times each bound |
| Dashboard.MeanWithin | src/components/Dashboard/Dashboard.tsx:14 | a mean of values whose sum lies between n times two bounds lies between the bounds |
| Dashboard.MeanOfScoresWithin | src/components/Dashboard/Dashboard.tsx:14 | the mean of scores between two bounds lies between them |
| Dashboard.AverageWithinScores | src/components/Dashboard/Dashboard.tsx:13-15 | the average lies between any bounds of the completed scores |
| Dashboard.SumScores | src/components/Dashboard/Dashboard.tsx:14 | the `reduce` over the scores, an absent one as 0, added in order |
| Dashboard.Mean | src/components/Dashboard/Dashboard.tsx:13-15 | the sum over the count, 0 for no attempts |
| Dashboard.MeanAfterAppend | src/components/Dashboard/Dashboard.tsx:13-15 | one more attempt moves the mean as a running mean, (n * mean + s) / (n + 1) |
| Dashboard.AvgAppendCompleted | src/components/Dashboard/Dashboard.tsx:12-15 | a completed attempt appended joins the attempts the average is taken over |
| Dashboard.AvgAfterCompleted | src/components/Dashboard/Dashboard.tsx:12-15 | appending a completed attempt with score s after n completed ones makes the average (n * average + s) / (n + 1) |
| Dashboard.AvgAfterOpen | src/components/Dashboard/Dashboard.tsx:12-15 | appending an attempt that is not completed leaves the average unchanged |
| Dashboard.AvgAfterSubmit | src/context/ExamContext.tsx:94-101 | after `submitExam` appends the attempt scored s, the dashboard's average is the running mean with s |
| Dashboard.AverageShown | src/components/Dashboard/Dashboard.tsx:32 | the average shown is the average rounded |
| Dashboard.CountActive | src/components/Dashboard/Dashboard.tsx:20 | the number of active exams in the catalog, counted one by one, at most the catalog's size |
| Dashboard.ActiveExams | src/components/Dashboard/Dashboard.tsx:81 | the cards listed are exactly the active exams, each as often as in the catalog, so as many cards as active exams |
| Dashboard.ActiveExamsInOrder | src/components/Dashboard/Dashboard.tsx:81 | the cards keep the catalog's order: the catalog with the inactive exams left out |
| Dashboard.AvailableCount | src/components/Dashboard/Dashboard.tsx:20 | the available figure is the number of cards listed, which is the number of active exams in the catalog |
| Dashboard.CountAllOrNone | src/components/Dashboard/Dashboard.tsx:20 | the count of active exams is the catalog's size exactly when all are active, and 0 exactly when none is |
| Dashboard.AvailableAllOrNone | src/components/Dashboard/Dashboard.tsx:20 | the available figure is the whole catalog exactly when every exam is active, and 0 exactly when none is |
| Dashboard.TotalTimeHours | src/components/Dashboard/Dashboard.tsx:38 | the hours shown are 1.2 per completed attempt, rounded |
| Dashboard.TotalTimeMonotone | src/components/Dashboard/Dashboard.tsx:38 | more completed attempts never show fewer hours |
| QuestionNavigator.HasAnswer | src/components/Exam/QuestionNavigator.tsx:19 | a value other than undefined, null and the empty string |
| QuestionNavigator.IsAnswered | src/components/Exam/QuestionNavigator.tsx:19 | an answered question has a recorded answer that is not undefined, null or the empty string |
| QuestionNavigator.Status | src/components/Exam/QuestionNavigator.tsx:18-29 | current before answered before unanswered, each exactly in its case |
| QuestionNavigator.Icon | src/components/Exam/QuestionNavigator.tsx:31-39 | a check exactly for an answered question that is not current |
| QuestionNavigator.IconMatchesStatus | src/components/Exam/QuestionNavigator.tsx:18-39 | the check icon shows exactly on buttons with the answered status |
| QuestionNavigator.ProgressCount | src/components/Exam/QuestionNavigator.tsx:84 | the progress counts every recorded key |
| QuestionNavigator.AnsweredCount | src/components/Exam/QuestionNavigator.tsx:19 | the number of questions counting as answered, at most the number of questions |
| QuestionNavigator.AnsweredIds | src/components/Exam/QuestionNavigator.tsx:19 | the answered ids are exactly the exam's question ids whose answer counts as given |
| QuestionNavigator.AnsweredCountIsIds | src/components/Exam/QuestionNavigator.tsx:19 | with distinct ids the number of answered buttons is the number of answered ids |
| QuestionNavigator.SubsetCardinality | src/components/Exam/QuestionNavigator.tsx:84 | a subset has no more elements than its superset |
| QuestionNavigator.ProgressCoversAnswered | src/components/Exam/QuestionNavigator.tsx:84 | the progress figure is at least the number of answered buttons |
| QuestionNavigator.ProgressMayExceedAnswered | src/components/Exam/QuestionNavigator.tsx:19 | a null answer counts in the progress but not as answered |
| McqQuestion.ButtonCount | src/components/Exam/MCQQuestion.tsx:32 | one button per option, none without options |
| McqQuestion.OptionLabel | src/components/Exam/MCQQuestion.tsx:53 | the label is the UTF-16 code 65 + index, a capital letter for the first 26 options |
| McqQuestion.LabelsDistinct | src/components/Exam/MCQQuestion.tsx:53 | different options get different labels up to the end of the code range |
| McqQuestion.Click | src/components/Exam/MCQQuestion.tsx:35 | a click records the option's index as a number |
| McqQuestion.IsHighlighted | src/components/Exam/MCQQuestion.tsx:37-44 | an option is highlighted when the answer is strictly its index |
| McqQuestion.AtMostOneHighlighted | src/components/Exam/MCQQuestion.tsx:37 | at most one option is highlighted, and none without an answer |
| McqQuestion.ClickHighlightsIt | src/components/Exam/MCQQuestion.tsx:35-44 | after a click exactly the clicked option is highlighted |
| McqQuestion.ClickScores | src/context/ExamContext.tsx:86-88 | a clicked option earns the question's points exactly when it is the correct answer |
| CodeEditor.ResolveTheme | src/components/Exam/CodeEditor.tsx:31-37 | dark and light are fixed; the system theme follows the colour-scheme preference |
| CodeEditor.Extension | src/components/Exam/CodeEditor.tsx:43-50 | python saves as py, java, c and cpp as themselves, every other language as txt |
| CodeEditor.DownloadName | src/components/Exam/CodeEditor.tsx:55 | the file is `solution.` followed by the extension |
| CodeEditor.DownloadNameDeterminesExtension | src/components/Exam/CodeEditor.tsx:55 | two languages get the same file name exactly when they get the same extension |
| CodeEditor.ResetCode | src/components/Exam/CodeEditor.tsx:62-65 | reset gives the language's template, or the empty string without one |
| CodeEditor.NormaliseChange | src/components/Exam/CodeEditor.tsx:101 | an editor change passes its value on, an absent value as the empty string |
| CodingQuestion.LanguageKey | src/components/Exam/CodingQuestion.tsx:48 | an undefined selected language is used as the key "undefined" |
| CodingQuestion.Languages | src/components/Exam/CodingQuestion.tsx:15 | one language per template entry, each with a template |
| CodingQuestion.Starter | src/components/Exam/CodingQuestion.tsx:32 | the code already written when non-empty, else the template |
| CodingQuestion.FallbackResult | src/components/Exam/CodingQuestion.tsx:62-67 | a failed run has no cases and zero time and memory |
| CodingQuestion.Outcome | src/components/Exam/CodingQuestion.tsx:52-67 | the judge's result is shown as received, a judge error as the failed fallback |
| CodingQuestion.ErrorReadsAsFailure | src/components/Exam/CodingQuestion.tsx:60-68 | after a judge error the panel counts no passed cases and shows a red "Failed" |
| CodingQuestion.CodingPanel.constructor | src/components/Exam/CodingQuestion.tsx:15-21 | the first language is selected, no code is stored, and nothing is running or shown |
| CodingQuestion.CodingPanel.QuestionEffect | src/components/Exam/CodingQuestion.tsx:23-28 | the first language's code is set to its template, other languages untouched |
| CodingQuestion.CodingPanel.QuestionEffects | src/components/Exam/CodeEditor.tsx:39-41 | the editor's reset and then the question effect: the selected language holds the question's template, the first language its template, every other entry unchanged |
| CodingQuestion.CodingPanel.ChangeQuestion | src/components/Exam/CodingQuestion.tsx:23-28 | a new question keeps the selected language; the selected language's code becomes the new question's template (or ""), the first language's its template, other entries unchanged |
| CodingQuestion.CodingPanel.HandleLanguageChange | src/components/Exam/CodingQuestion.tsx:30-35 | the language is selected, the output cleared, and its code restored or started from the template |
| CodingQuestion.CodingPanel.HandleCodeChange | src/components/Exam/CodingQuestion.tsx:37-39 | the edited code is stored under the selected language, other languages untouched |
| CodingQuestion.CodingPanel.EditorChange | src/components/Exam/CodeEditor.tsx:101 | an editor change stores its value, an absent one as the empty string |
| CodingQuestion.CodingPanel.EditorReset | src/components/Exam/CodeEditor.tsx:39-41 | the editor's reset stores the selected language's template |
| CodingQuestion.CodingPanel.SwitchLanguage | src/components/Exam/CodeEditor.tsx:39-41 | after a language change and the editor's reset, the language holds its template, so code written for it is lost |
| CodingQuestion.CodingPanel.BeginRun | src/components/Exam/CodingQuestion.tsx:41-50 | a run starts with the output cleared and sends the exam, question, selected language and its code; the summary is hidden while it runs |
| CodingQuestion.CodingPanel.RunEnabled | src/components/Exam/CodingQuestion.tsx:91 | the Run button is enabled exactly while no run is in progress |
| CodingQuestion.CodingPanel.PanelTestCases | src/components/Exam/CodingQuestion.tsx:115 | the test panel gets the question's test cases, none when absent |
| CodingQuestion.CodingPanel.FinishRun | src/components/Exam/CodingQuestion.tsx:52-70 | the run ends showing the judge's outcome; the summary then shows exactly when the question has test cases |
| TestCasesPanel.CountPassed | src/components/Exam/TestCasesPanel.tsx:66 | the passed count is at most the cases, all exactly when all passed, none exactly when none passed |
| TestCasesPanel.PassedCount | src/components/Exam/TestCasesPanel.tsx:66 | 0 without a result, otherwise the result's passed cases |
| TestCasesPanel.TotalCount | src/components/Exam/TestCasesPanel.tsx:67 | the total is the question's test cases |
| TestCasesPanel.PassedMayExceedTotal | src/components/Exam/TestCasesPanel.tsx:66-67 | a result with a passed case for a question without cases shows more passed than total |
| TestCasesPanel.StatusIcon | src/components/Exam/TestCasesPanel.tsx:25-36 | each case status has its own icon, a clock without one |
| TestCasesPanel.StatusTone | src/components/Exam/TestCasesPanel.tsx:38-49 | each case status has its own colour, gray without one |
| TestCasesPanel.IconAndToneAgree | src/components/Exam/TestCasesPanel.tsx:25-49 | icon and colour each tell the statuses apart |
| TestCasesPanel.OverallTone | src/components/Exam/TestCasesPanel.tsx:51-64 | blue running, green passed, red failed or partial, gray pending or without a result |
| TestCasesPanel.SummaryLabel | src/components/Exam/TestCasesPanel.tsx:214-216 | "All Passed", "Partially Passed", "Failed", and "Pending" for the rest |
| TestCasesPanel.ShowSummary | src/components/Exam/TestCasesPanel.tsx:112-207 | the summary shows only inside the active-case block, so with at least one test case, a result and no run in progress |
| TestCasesPanel.SummaryBesideHeader | src/components/Exam/TestCasesPanel.tsx:76-84 | whenever the summary shows, the header shows a figure, and passed over total once the run is not reported as running |
| TestCasesPanel.HeaderOf | src/components/Exam/TestCasesPanel.tsx:76-84 | nothing without a result, "Running" while running, else passed over total |
| TestCasesPanel.FindById | src/components/Exam/TestCasesPanel.tsx:92 | the first case with the id, none exactly when no case has it |
| TestCasesPanel.ResultFor | src/components/Exam/TestCasesPanel.tsx:92 | a test case is paired with the first result case of the same id, none without a result, an id or such a case |
| TestCasesPanel.TabIcon | src/components/Exam/TestCasesPanel.tsx:103 | a tab shows its paired case's icon, a clock without one |
| FullscreenHandler.BlockedKeys | src/components/Exam/FullscreenHandler.tsx:15-27 | only F11, F12, Alt+Tab, Ctrl+Shift+I and Ctrl+Shift+C are blocked; plain typing passes |
| FullscreenHandler.IsBlocked | src/components/Exam/FullscreenHandler.tsx:15-27 | the five shortcuts the handler cancels |
| FullscreenHandler.FullscreenGuard.OverlayVisible | src/components/Exam/FullscreenHandler.tsx:56-58 | the overlay renders unless the prompt was dismissed and the page is fullscreen |
| FullscreenHandler.FullscreenGuard.constructor | src/components/Exam/FullscreenHandler.tsx:7 | the prompt shows at first |
| FullscreenHandler.FullscreenGuard.HandleFullscreenChange | src/components/Exam/FullscreenHandler.tsx:10-13 | the session's flag follows the fullscreen element; leaving fullscreen shows the overlay |
| FullscreenHandler.FullscreenGuard.HandleKeyDown | src/components/Exam/FullscreenHandler.tsx:15-27 | the default is prevented exactly for the blocked shortcuts |
| FullscreenHandler.FullscreenGuard.HandleVisibilityChange | src/components/Exam/FullscreenHandler.tsx:29-34 | a hidden page is only warned about |
| FullscreenHandler.FullscreenGuard.EnterFullscreen | src/components/Exam/FullscreenHandler.tsx:47-54 | the prompt is dismissed exactly when the request succeeds |
| FullscreenHandler.EnterSuccessfully | src/components/Exam/FullscreenHandler.tsx:47-58 | a successful request and the change it causes hide the overlay |

## Left out

- Storage, network and rendering: `localStorage` and JSON (the stored history is a parameter of the session's constructor), the fetch of the catalog and the judge call (their replies are parameters), the JSX markup, and the routing beyond the target path recorded.
- Timing machinery: `setInterval`, effect scheduling, event listeners and their removal, stale closures and batched state updates. Each effect and handler is one method, run when the source would run it.
- `Math.random` attempt ids and `new Date()`: both are parameters.
- Browser APIs: `requestFullscreen`, `matchMedia`, the Monaco editor, the clipboard, `Blob` and download links, and the console messages.
- Floating point: scores, averages and progress are exact reals, so rounding error and NaN are not modelled.
- Exam.duration: whole minutes only; negative or fractional durations are not modelled.
- Types.JsValue: numeric answers are integers; the multiple-choice code only ever stores option indices.
- Prototype keys such as "constructor" or "__proto__" in the answers object are treated as ordinary keys.
- CodeEditor.Extension: a language named like an inherited object property ("constructor", "toString") makes `extensions[language]` read that property, so the source's extension is then not "txt"; the model knows only the four own keys.
- CodingQuestion.Starter: `codeMap[lang]` and `functionTemplate?.[lang]` read inherited properties for names such as "constructor"; the model's map and record hold only their own entries, so such a name reads as absent.
- CodingQuestion.CodingPanel.HandleLanguageChange: inherits the same gap through `Starter`.
- CodingQuestion.CodingPanel.BeginRun: `codeMap[selectedLanguage]` reads an inherited property for such a name where the model sends no code.
- Types.Question: `points` and Exam.allowedAttempts are JavaScript numbers in the source but `int` here; fractional, infinite or NaN values are not modelled.
- Types.Record: a sequence of entries may repeat a key, which a JavaScript object cannot; lookups take the first entry with the key and `RecordKeys` lists every entry, so only records with distinct keys correspond to real objects.
- History.SortDescending: the order it gives attempts with equal times is not stated; only the permutation and the latest-first order are proved, and the source's `sort` comparator leaves ties to the engine's (stable) sort.
- ExamInterface.ExamScreen.HandleAnswerChange: an index outside the questions, which throws a TypeError in the source, is modelled as leaving the answers unchanged. `CurrentAnswer` reads undefined in that case.
- ExamInterface.Progress: requires at least one question; an exam without questions crashes the source's render.
- TestCasesPanel: the active tab's selection state is left out; only the icon each tab shows is modelled, and `ShowSummary` reads the first tab as the active one.
- CodingQuestion.CodingPanel.constructor: a coding question without templates leaves the language undefined, and the source's editor then throws on `language.toUpperCase()` (src/components/Exam/CodeEditor.tsx:71) before any effect runs, taking the exam screen down. The model instead gives a working panel whose language is `None` and whose code lives under the key "undefined"; those states stand for no state the source reaches.
- Types: the record fields no modelled operation reads are left out (a question's function name, language templates, starter code, examples, constraints, tags and difficulty; an exam's start and end time), and so are the User, Problem, Example, LanguageTemplate and CodeExecution records.
- History.TimeOf: a completed attempt without an end time sorts as time 0.
- Types.Question: an absent `functionTemplate` is modelled as an empty record.
- CodingQuestion.Outcome: a judge reply missing fields is not modelled; the reply is a complete result or an error.
- The order in which a child's and its parent's effects run after one render is not modelled; `SwitchLanguage` and `QuestionEffects` fix the one order that matters, the editor's reset before the panel's own effect.
- src/App.tsx and src/services/api.ts are not part of this model: they hold routing and the HTTP client.
