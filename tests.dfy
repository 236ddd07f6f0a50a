/** The test service: submitting an attempt, the progress check with its
    forced submission, the student view of a test, and the result listing.
    Each operation is specified by a function of the stored tests, results
    and answer rows; the service class carries that state and its methods
    are proved to do what the functions say. */
module Tests {
  import opened Common
  import opened Grading
  import opened TestAttempts

  const ResultNotFound := "TestResult not found"
  const TestNotFound := "Test not found"
  const AlreadyFinished := "Test is already finished"
  const TestDoesNotExist := "Test does not exist"

  /** The submit response. It carries no questions. */
  datatype SubmitResponse = SubmitResponse(id: string, studentId: string, testId: string, attendedAt: int,
                                           totalCorrectAnswers: nat, totalQuestions: nat, finishedAt: int,
                                           grade: int, passed: bool)

  /** What an operation returns, with the results and rows it leaves behind. */
  datatype Step<T> = Step(outcome: Outcome<T>, results: seq<TestResult>, rows: seq<AnswerRow>)

  function ResultIndex(results: seq<TestResult>, id: string): int {
    FirstWhere(results, (r: TestResult) => r.id == id)
  }

  function TestIndex(tests: seq<Test>, id: string): int {
    FirstWhere(tests, (t: Test) => t.id == id)
  }

  /** The teacher view of a test dereferences its teacher id, status and
      show-result type; a test missing one of them cannot be viewed. */
  predicate TeacherViewable(t: Test) {
    t.teacherId.Some? && t.status.Some? && t.showResultType.Some?
  }

  /** An attempt closed with its grade at `now`. */
  function Finish(result: TestResult, grade: int, now: int): TestResult {
    result.(state := Finished, grade := grade, finishedAt := Some(now), updatedAt := now)
  }

  // ---------------------------------------------------------------------------
  // Submitting
  // ---------------------------------------------------------------------------

  /** submitTest: look up the attempt and its test, mark the questions
      against the submission and save a row per selected answer, then refuse
      a finished attempt, or else close it with its grade. */
  function Submit(tests: seq<Test>, results: seq<TestResult>, rows: seq<AnswerRow>,
                  body: SubmitRequest, now: int): Step<SubmitResponse>
  {
    var k := ResultIndex(results, body.testResultId);
    if k < 0 then Step(Fail(Rejected(ResultNotFound)), results, rows)
    else
      var result := results[k];
      var t := TestIndex(tests, result.testId);
      if t < 0 then Step(Fail(Rejected(TestNotFound)), results, rows)
      else if !TeacherViewable(tests[t]) then Step(Fail(NullReference), results, rows)
      else
        var qs := tests[t].questions;
        var marked := ProcessQuestions(qs, body.questionAndAnswers);
        var saved := SaveAll(rows, result, Selections(marked), now);
        if result.state == Finished then Step(Fail(Rejected(AlreadyFinished)), results, saved)
        else
          var correct := TotalCorrect(marked);
          var grade := Grade(correct, |qs|);
          Step(Ok(SubmitResponse(result.id, result.studentId, result.testId, result.attendedAt,
                                 correct, |qs|, now, grade, PassedOnSubmit(grade))),
               results[k := Finish(result, grade, now)], saved)
  }

  /** A submission succeeds exactly when the attempt and its test are found,
      the test can be viewed and the attempt is still ongoing. It then closes
      that attempt, and no other, with a grade in [0, 10] computed from the
      number of correct questions; the response reports the grade, passes at
      4.00 and counts the test's questions and, among them, the ones the
      marking found correct, at most as many as there are. A failed
      submission leaves every attempt as it was. */
  lemma SubmitClosesAttempt(tests: seq<Test>, results: seq<TestResult>, rows: seq<AnswerRow>,
                            body: SubmitRequest, now: int)
    ensures var step := Submit(tests, results, rows, body, now);
            var k := ResultIndex(results, body.testResultId);
            step.outcome.Ok?
            <==> k >= 0 && TestIndex(tests, results[k].testId) >= 0
                 && TeacherViewable(tests[TestIndex(tests, results[k].testId)]) && results[k].state == Ongoing
    ensures var step := Submit(tests, results, rows, body, now);
            step.outcome.Fail? ==> step.results == results
    ensures var step := Submit(tests, results, rows, body, now);
            var k := ResultIndex(results, body.testResultId);
            step.outcome.Ok? ==>
              var resp := step.outcome.value;
              |step.results| == |results|
              && (forall j :: 0 <= j < |results| && j != k ==> step.results[j] == results[j])
              && step.results[k] == Finish(results[k], resp.grade, now)
              && resp.id == body.testResultId
              && (var qs := tests[TestIndex(tests, results[k].testId)].questions;
                  resp.totalQuestions == |qs|
                  && resp.totalCorrectAnswers == TotalCorrect(ProcessQuestions(qs, body.questionAndAnswers)))
              && resp.totalCorrectAnswers <= resp.totalQuestions
              && resp.grade == Grade(resp.totalCorrectAnswers, resp.totalQuestions)
              && 0 <= resp.grade <= 1000
              && resp.passed == (resp.grade >= 400)
  {
    var step := Submit(tests, results, rows, body, now);
    var k := ResultIndex(results, body.testResultId);
    if step.outcome.Ok? {
      var qs := tests[TestIndex(tests, results[k].testId)].questions;
      var marked := ProcessQuestions(qs, body.questionAndAnswers);
      GradeRange(TotalCorrect(marked), |qs|);
    }
  }

  /** A finished attempt is never graded again: submitting it fails and
      leaves every attempt, its grade and its state as they were. */
  lemma FinishedIsNeverRegraded(tests: seq<Test>, results: seq<TestResult>, rows: seq<AnswerRow>,
                                body: SubmitRequest, now: int)
    requires ResultIndex(results, body.testResultId) >= 0
    requires results[ResultIndex(results, body.testResultId)].state == Finished
    ensures Submit(tests, results, rows, body, now).outcome.Fail?
    ensures Submit(tests, results, rows, body, now).results == results
  {
  }

  /** The finished check comes after the answer rows are saved: a refused
      submission still appends a row for each answer it selects. */
  lemma RefusedSubmissionStillWritesRows(tests: seq<Test>, results: seq<TestResult>, rows: seq<AnswerRow>,
                                         body: SubmitRequest, now: int)
    requires ResultIndex(results, body.testResultId) >= 0
    requires var result := results[ResultIndex(results, body.testResultId)];
             result.state == Finished && result.id != result.testId
             && TestIndex(tests, result.testId) >= 0 && TeacherViewable(tests[TestIndex(tests, result.testId)])
             && forall k :: 0 <= k < |rows| ==> rows[k].testResultId != result.testId
    ensures var result := results[ResultIndex(results, body.testResultId)];
            var qs := tests[TestIndex(tests, result.testId)].questions;
            var step := Submit(tests, results, rows, body, now);
            step.outcome == Fail(Rejected(AlreadyFinished))
            && step.rows == rows + NewRows(result, Selections(ProcessQuestions(qs, body.questionAndAnswers)), now)
  {
    var result := results[ResultIndex(results, body.testResultId)];
    var qs := tests[TestIndex(tests, result.testId)].questions;
    SavingAppends(rows, result, Selections(ProcessQuestions(qs, body.questionAndAnswers)), now);
  }

  /** Once a submission has succeeded, any later submission for the same
      attempt fails and changes no attempt. */
  lemma SecondSubmitFails(tests: seq<Test>, results: seq<TestResult>, rows: seq<AnswerRow>,
                          body: SubmitRequest, now: int, again: SubmitRequest, later: int)
    requires Submit(tests, results, rows, body, now).outcome.Ok?
    requires again.testResultId == body.testResultId
    ensures var first := Submit(tests, results, rows, body, now);
            var second := Submit(tests, first.results, first.rows, again, later);
            second.outcome == Fail(Rejected(AlreadyFinished)) && second.results == first.results
  {
    var first := Submit(tests, results, rows, body, now);
    var k := ResultIndex(results, body.testResultId);
    SubmitClosesAttempt(tests, results, rows, body, now);
    assert ResultIndex(first.results, body.testResultId) == k by {
      assert forall j :: 0 <= j < k ==> first.results[j] == results[j];
      assert first.results[k].id == body.testResultId;
    }
  }

  // ---------------------------------------------------------------------------
  // The progress check
  // ---------------------------------------------------------------------------

  datatype Progress = Progress(testResult: Option<TestResult>, questions: seq<QuestionView>)

  /** The rows of one attempt of one student. */
  function OwnRows(rows: seq<AnswerRow>, studentId: string, resultId: string): seq<AnswerRow> {
    Filter(rows, (row: AnswerRow) => row.studentId == studentId && row.testResultId == resultId)
  }

  /** getProgress: with no ongoing attempt, empty progress; once the latest
      ongoing attempt has run out, it is submitted from its saved rows and
      the progress is empty; otherwise the attempt with its questions, the
      saved selections marked. */
  function ProgressCheck(tests: seq<Test>, results: seq<TestResult>, rows: seq<AnswerRow>,
                         studentId: string, testId: string, now: int): Step<Progress>
  {
    var latest := LatestOngoing(results, studentId, testId);
    if latest.None? then Step(Ok(Progress(None, [])), results, rows)
    else
      var attempt := latest.value;
      var t := TestIndex(tests, testId);
      if t < 0 then Step(Fail(Rejected(TestDoesNotExist)), results, rows)
      else
        var own := OwnRows(rows, studentId, attempt.id);
        if TimedOut(now, attempt.attendedAt, tests[t].duration) then
          var submitted := Submit(tests, results, rows, SubmitRequest(attempt.id, GroupRows(own)), now);
          Step(if submitted.outcome.Ok? then Ok(Progress(None, [])) else Fail(submitted.outcome.error),
               submitted.results, submitted.rows)
        else
          Step(Ok(Progress(Some(attempt), MarkSelected(Views(tests[t].questions), own, attempt.id))), results, rows)
  }

  predicate DistinctResultIds(results: seq<TestResult>) {
    forall i, j :: 0 <= i < j < |results| ==> results[i].id != results[j].id
  }

  lemma ResultIndexOfMember(results: seq<TestResult>, i: nat)
    requires DistinctResultIds(results) && i < |results|
    ensures ResultIndex(results, results[i].id) == i
  {
  }

  /** For a viewable test, the progress check returns empty progress exactly
      when the latest ongoing attempt has run out; that attempt is then
      closed. Otherwise it returns that attempt and changes nothing. */
  lemma ProgressEmptyIffTimedOut(tests: seq<Test>, results: seq<TestResult>, rows: seq<AnswerRow>,
                                 studentId: string, testId: string, now: int)
    requires DistinctResultIds(results)
    requires LatestOngoing(results, studentId, testId).Some?
    requires TestIndex(tests, testId) >= 0 && TeacherViewable(tests[TestIndex(tests, testId)])
    ensures var attempt := LatestOngoing(results, studentId, testId).value;
            var step := ProgressCheck(tests, results, rows, studentId, testId, now);
            var timedOut := TimedOut(now, attempt.attendedAt, tests[TestIndex(tests, testId)].duration);
            step.outcome.Ok?
            && (step.outcome.value.testResult.None? <==> timedOut)
            && (timedOut ==> exists k :: 0 <= k < |results| && results[k] == attempt
                                         && step.results[k].state == Finished && step.results[k].id == attempt.id)
            && (!timedOut ==> step.outcome.value.testResult == Some(attempt) && step.results == results
                              && step.rows == rows)
  {
    var attempt := LatestOngoing(results, studentId, testId).value;
    var k :| 0 <= k < |results| && results[k] == attempt;
    ResultIndexOfMember(results, k);
    var t := TestIndex(tests, testId);
    if TimedOut(now, attempt.attendedAt, tests[t].duration) {
      var own := OwnRows(rows, studentId, attempt.id);
      SubmitClosesAttempt(tests, results, rows, SubmitRequest(attempt.id, GroupRows(own)), now);
    }
  }

  /** The progress view shows every answer's correctness flag to the
      student while the attempt is still running. */
  lemma ProgressRevealsCorrectness(tests: seq<Test>, results: seq<TestResult>, rows: seq<AnswerRow>,
                                   studentId: string, testId: string, now: int, i: nat, j: nat)
    requires LatestOngoing(results, studentId, testId).Some?
    requires TestIndex(tests, testId) >= 0
    requires var attempt := LatestOngoing(results, studentId, testId).value;
             !TimedOut(now, attempt.attendedAt, tests[TestIndex(tests, testId)].duration)
    requires var qs := tests[TestIndex(tests, testId)].questions;
             i < |qs| && j < |qs[i].answers|
    ensures var qs := tests[TestIndex(tests, testId)].questions;
            var step := ProgressCheck(tests, results, rows, studentId, testId, now);
            step.outcome.Ok? && |step.outcome.value.questions| == |qs|
            && |step.outcome.value.questions[i].answers| == |qs[i].answers|
            && step.outcome.value.questions[i].answers[j].isCorrect == Some(qs[i].answers[j].isCorrect)
  {
  }

  /** In a forced submission, the i-th test question is marked with the
      answers of the i-th question the student answered first, not with its
      own. */
  lemma ForcedSelection(qs: seq<Question>, rows: seq<AnswerRow>, i: nat, j: nat)
    requires DistinctIds(qs)
    requires i < |qs| && j < |qs[i].answers|
    ensures ProcessQuestions(qs, GroupRows(rows))[i].answers[j].selected
            == (i < |FirstAppearance(rows)| && qs[i].answers[j].id in AnswerIdsOf(rows, FirstAppearance(rows)[i]))
  {
    PositionalPairing(qs, GroupRows(rows), i, j);
    GroupRowsShape(rows);
  }

  /** When the student answered the questions in test order, skipping none
      before the last one answered, the forced submission marks an answer
      selected exactly when a saved row pairs it with its own question. */
  lemma ForcedSelectionInOrder(qs: seq<Question>, rows: seq<AnswerRow>, i: nat, j: nat)
    requires DistinctIds(qs)
    requires i < |qs| && j < |qs[i].answers|
    requires |FirstAppearance(rows)| <= |qs|
    requires forall k :: 0 <= k < |FirstAppearance(rows)| ==> FirstAppearance(rows)[k] == qs[k].id
    ensures ProcessQuestions(qs, GroupRows(rows))[i].answers[j].selected
            <==> exists k :: 0 <= k < |rows| && rows[k].questionId == qs[i].id && rows[k].answerId == qs[i].answers[j].id
  {
    ForcedSelection(qs, rows, i, j);
    FirstAppearanceMembers(rows);
    var ids := FirstAppearance(rows);
    if i < |ids| {
      AnswerIdsMembers(rows, ids[i]);
    } else {
      assert qs[i].id !in ids by {
        forall k | 0 <= k < |ids| ensures ids[k] != qs[i].id {
          assert ids[k] == qs[k].id;
        }
      }
    }
  }

  /** A student who answered only the second of two questions: the forced
      submission pairs that answer with the first question, so neither
      question counts as correct although the saved answer was right. */
  lemma {:induction false} SkippedQuestionShiftsSelections()
    ensures var qs := [Question("q1", "", [Answer("a1", "", true)]), Question("q2", "", [Answer("a2", "", true)])];
            var rows := [AnswerRow("a2", "q2", "s", "r", 0, 0, true)];
            var marked := ProcessQuestions(qs, GroupRows(rows));
            !marked[0].answers[0].selected && !marked[1].answers[0].selected && TotalCorrect(marked) == 0
  {
    var qs := [Question("q1", "", [Answer("a1", "", true)]), Question("q2", "", [Answer("a2", "", true)])];
    var rows := [AnswerRow("a2", "q2", "s", "r", 0, 0, true)];
    assert rows[..0] == [];
    assert GroupRows(rows) == [QuestionAndAnswers("q2", ["a2"])];
    assert IndexOf(qs, qs[0]) == 0 && IndexOf(qs, qs[1]) == 1;
    var marked := ProcessQuestions(qs, GroupRows(rows));
    assert marked[0] == MarkQuestion(qs[0], ["a2"]);
    assert marked[1] == MarkQuestion(qs[1], []);
    MissedOnlyAnswer(marked[0]);
    MissedOnlyAnswer(marked[1]);
    assert marked[1..][1..] == [];
  }

  /** A question whose only answer is correct and not selected is wrong. */
  lemma {:induction false} MissedOnlyAnswer(q: MarkedQuestion)
    requires |q.answers| == 1 && q.answers[0].correct && !q.answers[0].selected
    ensures !IsQuestionCorrect(q)
  {
    QuestionCorrectIff(q);
  }

  // ---------------------------------------------------------------------------
  // The student view of a test
  // ---------------------------------------------------------------------------

  datatype TestDetail = TestDetail(id: string, teacherId: Option<string>, duration: int, attemptLimit: int,
                                   showResultType: ShowResultType, status: string,
                                   questions: seq<QuestionView>, totalQuestions: nat)

  /** A question as a student sees it: correctness flags kept when results
      are shown immediately, and removed otherwise. */
  function StudentView(q: Question, shown: bool): (v: QuestionView)
    ensures v.id == q.id && v.content == q.content && |v.answers| == |q.answers|
    ensures forall j :: 0 <= j < |q.answers| ==>
              v.answers[j].id == q.answers[j].id && !v.answers[j].selected
              && (shown ==> v.answers[j].isCorrect == Some(q.answers[j].isCorrect))
              && (!shown ==> v.answers[j].isCorrect.None?)
  {
    var view := ViewOf(q);
    if shown then view
    else view.(answers := seq(|view.answers|, j requires 0 <= j < |view.answers| => view.answers[j].(isCorrect := None)))
  }

  // ---------------------------------------------------------------------------
  // The result listing
  // ---------------------------------------------------------------------------

  /** An attempt in the result listing. */
  datatype ResultView = ResultView(testId: string, grade: int, passed: bool, attendedAt: int, finishedAt: int,
                                   questions: seq<QuestionView>)

  /** The listing passes an attempt at 5.00 and shows every question of the
      test with the attempt's own saved selections. */
  function ResultViewOf(result: TestResult, qs: seq<Question>, rows: seq<AnswerRow>, studentId: string): (v: ResultView)
    requires result.finishedAt.Some?
    ensures v.testId == result.testId && v.grade == result.grade && v.finishedAt == result.finishedAt.value
    ensures v.passed <==> result.grade >= 500
    ensures |v.questions| == |qs|
  {
    ResultView(result.testId, result.grade, PassedInListing(result.grade), result.attendedAt, result.finishedAt.value,
               MarkSelected(Views(qs), OwnRows(rows, studentId, result.id), result.id))
  }

  /** The two pass thresholds disagree: an attempt graded from 4.00 up to
      but not including 5.00 is reported passed when submitted and not
      passed when listed afterwards. */
  lemma ListingMayContradictSubmit(tests: seq<Test>, results: seq<TestResult>, rows: seq<AnswerRow>,
                                   body: SubmitRequest, now: int, qs: seq<Question>, studentId: string)
    requires Submit(tests, results, rows, body, now).outcome.Ok?
    ensures var step := Submit(tests, results, rows, body, now);
            var resp := step.outcome.value;
            var k := ResultIndex(results, body.testResultId);
            0 <= k < |step.results| && step.results[k].finishedAt == Some(now)
            && var listed := ResultViewOf(step.results[k], qs, step.rows, studentId);
               listed.grade == resp.grade
               && (resp.passed && !listed.passed <==> 400 <= resp.grade < 500)
               && (listed.passed ==> resp.passed)
  {
    SubmitClosesAttempt(tests, results, rows, body, now);
  }

  function AttemptsOf(results: seq<TestResult>, studentId: string, testId: string): seq<TestResult> {
    Filter(results, (r: TestResult) => r.studentId == studentId && r.testId == testId)
  }

  // ---------------------------------------------------------------------------
  // The service
  // ---------------------------------------------------------------------------

  class TestService {
    const tests: seq<Test>
    var results: seq<TestResult>
    var rows: seq<AnswerRow>

    constructor(tests: seq<Test>, results: seq<TestResult>, rows: seq<AnswerRow>)
      ensures this.tests == tests && this.results == results && this.rows == rows
    {
      this.tests := tests;
      this.results := results;
      this.rows := rows;
    }

    /** Saves the selected answers of a submission one by one. */
    method SaveSelections(result: TestResult, selections: seq<Selection>, now: int)
      modifies this
      ensures results == old(results) && rows == SaveAll(old(rows), result, selections, now)
    {
      for i := 0 to |selections|
        invariant results == old(results)
        invariant rows == SaveAll(old(rows), result, selections[..i], now)
      {
        assert selections[..i + 1][..i] == selections[..i];
        rows := SaveStudentAnswer(rows, result, selections[i], now);
      }
      assert selections[..|selections|] == selections;
    }

    /** submitTest, saving the selected answers one by one before the
        finished check. */
    method SubmitTest(body: SubmitRequest, now: int) returns (r: Outcome<SubmitResponse>)
      modifies this
      ensures var step := Submit(tests, old(results), old(rows), body, now);
              r == step.outcome && results == step.results && rows == step.rows
    {
      var k := ResultIndex(results, body.testResultId);
      if k < 0 {
        return Fail(Rejected(ResultNotFound));
      }
      var result := results[k];
      var t := TestIndex(tests, result.testId);
      if t < 0 {
        return Fail(Rejected(TestNotFound));
      }
      var test := tests[t];
      if !TeacherViewable(test) {
        return Fail(NullReference);
      }
      var marked := ProcessQuestions(test.questions, body.questionAndAnswers);
      SaveSelections(result, Selections(marked), now);
      if result.state == Finished {
        return Fail(Rejected(AlreadyFinished));
      }
      var correct := TotalCorrect(marked);
      var grade := Grade(correct, |test.questions|);
      results := results[k := Finish(result, grade, now)];
      r := Ok(SubmitResponse(result.id, result.studentId, result.testId, result.attendedAt,
                             correct, |test.questions|, now, grade, PassedOnSubmit(grade)));
    }

    /** getProgress. */
    method GetProgress(studentId: string, testId: string, now: int) returns (r: Outcome<Progress>)
      modifies this
      ensures var step := ProgressCheck(tests, old(results), old(rows), studentId, testId, now);
              r == step.outcome && results == step.results && rows == step.rows
    {
      var latest := LatestOngoing(results, studentId, testId);
      if latest.None? {
        return Ok(Progress(None, []));
      }
      var attempt := latest.value;
      var t := TestIndex(tests, testId);
      if t < 0 {
        return Fail(Rejected(TestDoesNotExist));
      }
      var own := OwnRows(rows, studentId, attempt.id);
      if TimedOut(now, attempt.attendedAt, tests[t].duration) {
        var request := ConvertToSubmitRequest(own, attempt.id);
        GroupRowsShape(own);
        assert request.questionAndAnswers == GroupRows(own);
        var submitted := SubmitTest(request, now);
        if submitted.Fail? {
          return Fail(submitted.error);
        }
        return Ok(Progress(None, []));
      }
      var questions := UpdateSelectedAnswers(Views(tests[t].questions), own, attempt.id);
      r := Ok(Progress(Some(attempt), questions));
    }

    /** getTestDetail: the test with its questions, correctness flags removed
        unless results are shown immediately, and a missing attempt limit
        reported as 1. */
    method GetTestDetail(id: string) returns (r: Outcome<TestDetail>)
      ensures var t := TestIndex(tests, id);
              t < 0 ==> r == Fail(Rejected("Test not found with id: " + id))
      ensures var t := TestIndex(tests, id);
              t >= 0 && (tests[t].showResultType.None? || tests[t].status.None?) ==> r == Fail(NullReference)
      ensures var t := TestIndex(tests, id);
              t >= 0 && tests[t].showResultType.Some? && tests[t].status.Some? ==>
                var test := tests[t];
                var shown := test.showResultType.value == ShowResultImmediately;
                r.Ok? && r.value.id == id && r.value.attemptLimit == test.attemptLimit.GetOr(1)
                && r.value.totalQuestions == |r.value.questions| == |test.questions|
                && forall i :: 0 <= i < |test.questions| ==> r.value.questions[i] == StudentView(test.questions[i], shown)
    {
      var t := TestIndex(tests, id);
      if t < 0 {
        return Fail(Rejected("Test not found with id: " + id));
      }
      var test := tests[t];
      if test.showResultType.None? || test.status.None? {
        return Fail(NullReference);
      }
      var shown := test.showResultType.value == ShowResultImmediately;
      var questions := Views(test.questions);
      if !shown {
        for i := 0 to |questions|
          invariant |questions| == |test.questions|
          invariant forall k :: 0 <= k < i ==> questions[k] == StudentView(test.questions[k], false)
          invariant forall k :: i <= k < |questions| ==> questions[k] == ViewOf(test.questions[k])
        {
          var answers := questions[i].answers;
          var stripped: seq<AnswerView> := [];
          for j := 0 to |answers|
            invariant |stripped| == j
            invariant forall k :: 0 <= k < j ==> stripped[k] == answers[k].(isCorrect := None)
          {
            stripped := stripped + [answers[j].(isCorrect := None)];
          }
          questions := questions[i := questions[i].(answers := stripped)];
        }
      }
      var limit := if test.attemptLimit.None? then 1 else test.attemptLimit.value;
      r := Ok(TestDetail(test.id, test.teacherId, test.duration, limit, test.showResultType.value,
                         test.status.value, questions, |questions|));
    }

    /** getTestResult: every attempt of the student at the test, in stored
        order, with its selections marked and passed at 5.00. */
    method GetTestResult(studentId: string, testId: string) returns (r: Outcome<seq<ResultView>>)
      ensures var mine := AttemptsOf(results, studentId, testId);
              |mine| == 0 ==> r == Ok([])
      ensures var mine := AttemptsOf(results, studentId, testId);
              |mine| > 0 && TestIndex(tests, testId) < 0 ==> r == Fail(Rejected(TestNotFound))
      ensures var mine := AttemptsOf(results, studentId, testId);
              |mine| > 0 && TestIndex(tests, testId) >= 0 && (exists i :: 0 <= i < |mine| && mine[i].finishedAt.None?)
              ==> r == Fail(NullReference)
      ensures var mine := AttemptsOf(results, studentId, testId);
              |mine| > 0 && TestIndex(tests, testId) >= 0 && (forall i :: 0 <= i < |mine| ==> mine[i].finishedAt.Some?)
              ==> r.Ok? && |r.value| == |mine|
                  && forall i :: 0 <= i < |mine| ==>
                       r.value[i] == ResultViewOf(mine[i], tests[TestIndex(tests, testId)].questions, rows, studentId)
    {
      var mine := AttemptsOf(results, studentId, testId);
      if |mine| == 0 {
        return Ok([]);
      }
      var t := TestIndex(tests, testId);
      if t < 0 {
        return Fail(Rejected(TestNotFound));
      }
      var qs := tests[t].questions;
      var views: seq<ResultView> := [];
      for i := 0 to |mine|
        invariant |views| == i
        invariant forall k :: 0 <= k < i ==> mine[k].finishedAt.Some? && views[k] == ResultViewOf(mine[k], qs, rows, studentId)
      {
        var attempt := mine[i];
        if attempt.finishedAt.None? {
          return Fail(NullReference);
        }
        var questions := UpdateSelectedAnswers(Views(qs), OwnRows(rows, studentId, attempt.id), attempt.id);
        views := views + [ResultView(attempt.testId, attempt.grade, PassedInListing(attempt.grade),
                                     attempt.attendedAt, attempt.finishedAt.value, questions)];
      }
      r := Ok(views);
    }
  }
}
