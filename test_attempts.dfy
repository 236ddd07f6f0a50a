/** The attempt side of the test service: the records it reads and writes
    (tests, test results, saved answer rows), the rows a submission writes,
    the regrouping of saved rows into a submission, the marking of selected
    answers in a question view, and the timeout rule of the progress check.
    Timestamps are integer milliseconds. */
module TestAttempts {
  import opened Common
  import opened Grading

  datatype TestState = Ongoing | Finished

  datatype ShowResultType = ShowResultImmediately | ShowResultAfterTest

  /** A stored test with the questions its repository lists for it. Columns
      that may be null are options; `duration` is in seconds. */
  datatype Test = Test(id: string, teacherId: Option<string>, duration: int, attemptLimit: Option<int>,
                       showResultType: Option<ShowResultType>, status: Option<string>,
                       questions: seq<Question>)

  /** One attempt of a student at a test. */
  datatype TestResult = TestResult(id: string, studentId: string, testId: string, attendedAt: int,
                                   state: TestState, grade: int, finishedAt: Option<int>, updatedAt: int)

  /** A saved selection: one row per selected answer of an attempt. */
  datatype AnswerRow = AnswerRow(answerId: string, questionId: string, studentId: string, testResultId: string,
                                 createdAt: int, updatedAt: int, correct: bool)

  datatype SubmitRequest = SubmitRequest(testResultId: string, questionAndAnswers: seq<QuestionAndAnswers>)

  // ---------------------------------------------------------------------------
  // Writing answer rows
  // ---------------------------------------------------------------------------

  /** A selected answer, as a submission writes it. */
  datatype Selection = Selection(questionId: string, answerId: string, correct: bool)

  /** The selected answers of one marked question, in answer order. */
  function SelectedIn(q: MarkedQuestion): seq<Selection> {
    SelectedFrom(q.id, q.answers)
  }

  function SelectedFrom(questionId: string, answers: seq<MarkedAnswer>): seq<Selection> {
    if |answers| == 0 then []
    else
      SelectedFrom(questionId, answers[..|answers| - 1])
      + (var a := answers[|answers| - 1]; if a.selected then [Selection(questionId, a.id, a.correct)] else [])
  }

  /** The selected answers of all marked questions, question by question. */
  function Selections(mqs: seq<MarkedQuestion>): seq<Selection> {
    if |mqs| == 0 then [] else Selections(mqs[..|mqs| - 1]) + SelectedIn(mqs[|mqs| - 1])
  }

  lemma {:induction false} SelectedFromMembers(questionId: string, answers: seq<MarkedAnswer>, s: Selection)
    ensures s in SelectedFrom(questionId, answers)
            <==> s.questionId == questionId
                 && exists j :: 0 <= j < |answers| && answers[j].selected
                                && s == Selection(questionId, answers[j].id, answers[j].correct)
  {
    if |answers| > 0 {
      var init := answers[..|answers| - 1];
      SelectedFromMembers(questionId, init, s);
      assert forall j :: 0 <= j < |init| ==> init[j] == answers[j];
    }
  }

  /** The rows a submission writes are exactly its selected answers: one per
      answer marked selected, with that answer's correctness flag. */
  lemma {:induction false} SelectionsMembers(mqs: seq<MarkedQuestion>, s: Selection)
    ensures s in Selections(mqs)
            <==> exists i, j :: 0 <= i < |mqs| && 0 <= j < |mqs[i].answers| && mqs[i].answers[j].selected
                                && s == Selection(mqs[i].id, mqs[i].answers[j].id, mqs[i].answers[j].correct)
  {
    if |mqs| > 0 {
      var init := mqs[..|mqs| - 1];
      var last := mqs[|mqs| - 1];
      SelectionsMembers(init, s);
      SelectedFromMembers(last.id, last.answers, s);
      assert forall i :: 0 <= i < |init| ==> init[i] == mqs[i];
      if s in Selections(mqs) && s !in Selections(init) {
        var j :| 0 <= j < |last.answers| && last.answers[j].selected
                 && s == Selection(last.id, last.answers[j].id, last.answers[j].correct);
        assert mqs[|mqs| - 1] == last;
      }
    }
  }

  /** The row a selection becomes. */
  function NewRow(result: TestResult, s: Selection, now: int): AnswerRow {
    AnswerRow(s.answerId, s.questionId, result.studentId, result.id, now, now, s.correct)
  }

  /** The lookup key of an existing row to overwrite. The test id stands where
      the result id belongs. */
  predicate SameKey(row: AnswerRow, result: TestResult, s: Selection) {
    row.studentId == result.studentId && row.testResultId == result.testId
    && row.questionId == s.questionId && row.answerId == s.answerId
  }

  /** Saves one selection: overwrites the first row found under the lookup
      key, or appends a new row when no row has that key. */
  function SaveStudentAnswer(rows: seq<AnswerRow>, result: TestResult, s: Selection, now: int): (r: seq<AnswerRow>)
    ensures (forall j :: 0 <= j < |rows| ==> !SameKey(rows[j], result, s)) ==> r == rows + [NewRow(result, s, now)]
    ensures (exists j :: 0 <= j < |rows| && SameKey(rows[j], result, s))
            ==> exists k :: 0 <= k < |rows| && SameKey(rows[k], result, s)
                            && (forall j :: 0 <= j < k ==> !SameKey(rows[j], result, s))
                            && r == rows[k := NewRow(result, s, now)]
  {
    var k := FirstWhere(rows, (row: AnswerRow) => SameKey(row, result, s));
    if k < 0 then rows + [NewRow(result, s, now)] else rows[k := NewRow(result, s, now)]
  }

  /** Saves the selections one after another. */
  function SaveAll(rows: seq<AnswerRow>, result: TestResult, sels: seq<Selection>, now: int): seq<AnswerRow> {
    if |sels| == 0 then rows
    else SaveStudentAnswer(SaveAll(rows, result, sels[..|sels| - 1], now), result, sels[|sels| - 1], now)
  }

  function NewRows(result: TestResult, sels: seq<Selection>, now: int): seq<AnswerRow> {
    seq(|sels|, i requires 0 <= i < |sels| => NewRow(result, sels[i], now))
  }

  /** Because the lookup key carries the test id, no row matches it as long
      as no row is filed under the test id and the result id differs from
      the test id; then every save appends a fresh row, and saving the same
      selections again duplicates them. */
  lemma {:induction false} SavingAppends(rows: seq<AnswerRow>, result: TestResult, sels: seq<Selection>, now: int)
    requires result.id != result.testId
    requires forall k :: 0 <= k < |rows| ==> rows[k].testResultId != result.testId
    ensures SaveAll(rows, result, sels, now) == rows + NewRows(result, sels, now)
  {
    if |sels| > 0 {
      var init := sels[..|sels| - 1];
      SavingAppends(rows, result, init, now);
      var before := rows + NewRows(result, init, now);
      assert forall k :: 0 <= k < |before| ==> before[k].testResultId != result.testId;
      assert NewRows(result, sels, now) == NewRows(result, init, now) + [NewRow(result, sels[|sels| - 1], now)];
    }
  }

  // ---------------------------------------------------------------------------
  // Regrouping saved rows into a submission
  // ---------------------------------------------------------------------------

  /** The question ids of the rows, each once, in order of first appearance. */
  function FirstAppearance(rows: seq<AnswerRow>): seq<string> {
    if |rows| == 0 then []
    else
      var ids := FirstAppearance(rows[..|rows| - 1]);
      var q := rows[|rows| - 1].questionId;
      if q in ids then ids else ids + [q]
  }

  /** The answer ids of the rows for one question, in row order. */
  function AnswerIdsOf(rows: seq<AnswerRow>, questionId: string): seq<string> {
    if |rows| == 0 then []
    else
      var last := rows[|rows| - 1];
      AnswerIdsOf(rows[..|rows| - 1], questionId) + (if last.questionId == questionId then [last.answerId] else [])
  }

  /** Adds a row to the groups: to the first group of its question, or as a
      new group at the end. */
  function AddRow(groups: seq<QuestionAndAnswers>, row: AnswerRow): seq<QuestionAndAnswers> {
    var k := FirstWhere(groups, (g: QuestionAndAnswers) => g.questionId == row.questionId);
    if k < 0 then groups + [QuestionAndAnswers(row.questionId, [row.answerId])]
    else groups[k := QuestionAndAnswers(row.questionId, groups[k].answers + [row.answerId])]
  }

  /** The rows grouped by question, one row at a time. */
  function GroupRows(rows: seq<AnswerRow>): seq<QuestionAndAnswers> {
    if |rows| == 0 then [] else AddRow(GroupRows(rows[..|rows| - 1]), rows[|rows| - 1])
  }

  /** A question id appears exactly when some row is for that question, and
      appears once. */
  lemma {:induction false} FirstAppearanceMembers(rows: seq<AnswerRow>)
    ensures forall q :: q in FirstAppearance(rows) <==> exists k :: 0 <= k < |rows| && rows[k].questionId == q
    ensures forall i, j :: 0 <= i < j < |FirstAppearance(rows)| ==> FirstAppearance(rows)[i] != FirstAppearance(rows)[j]
  {
    if |rows| > 0 {
      var init := rows[..|rows| - 1];
      FirstAppearanceMembers(init);
      assert forall k :: 0 <= k < |init| ==> init[k] == rows[k];
      forall q | q in FirstAppearance(rows) ensures exists k :: 0 <= k < |rows| && rows[k].questionId == q {
        if q !in FirstAppearance(init) {
          assert rows[|rows| - 1].questionId == q;
        }
      }
    }
  }

  /** An answer id is listed for a question exactly when some row pairs them. */
  lemma {:induction false} AnswerIdsMembers(rows: seq<AnswerRow>, questionId: string)
    ensures forall a :: a in AnswerIdsOf(rows, questionId)
                        <==> exists k :: 0 <= k < |rows| && rows[k].questionId == questionId && rows[k].answerId == a
  {
    if |rows| > 0 {
      var init := rows[..|rows| - 1];
      AnswerIdsMembers(init, questionId);
      assert forall k :: 0 <= k < |init| ==> init[k] == rows[k];
    }
  }

  lemma NoAnswerIdsWithoutRows(rows: seq<AnswerRow>, questionId: string)
    requires questionId !in FirstAppearance(rows)
    ensures AnswerIdsOf(rows, questionId) == []
  {
    FirstAppearanceMembers(rows);
    AnswerIdsMembers(rows, questionId);
  }

  /** The regrouping: one group per question id, in order of first
      appearance, holding every answer id of that question's rows in row
      order and no other. */
  lemma {:induction false} GroupRowsShape(rows: seq<AnswerRow>)
    ensures |GroupRows(rows)| == |FirstAppearance(rows)|
    ensures forall i :: 0 <= i < |GroupRows(rows)| ==>
              GroupRows(rows)[i] == QuestionAndAnswers(FirstAppearance(rows)[i], AnswerIdsOf(rows, FirstAppearance(rows)[i]))
  {
    if |rows| > 0 {
      var init := rows[..|rows| - 1];
      var row := rows[|rows| - 1];
      GroupRowsShape(init);
      FirstAppearanceMembers(init);
      var groups := GroupRows(init);
      var ids := FirstAppearance(init);
      var k := FirstWhere(groups, (g: QuestionAndAnswers) => g.questionId == row.questionId);
      if k < 0 {
        assert row.questionId !in ids;
        NoAnswerIdsWithoutRows(init, row.questionId);
      } else {
        assert ids[k] == row.questionId;
        forall i | 0 <= i < |ids| && i != k ensures ids[i] != row.questionId {
        }
      }
    }
  }

  /** convertToTestSubmitRequest: one pass over the rows, appending each
      answer id to its question's group or opening a new group. */
  method ConvertToSubmitRequest(rows: seq<AnswerRow>, resultId: string) returns (request: SubmitRequest)
    ensures request.testResultId == resultId
    ensures |request.questionAndAnswers| == |FirstAppearance(rows)|
    ensures forall i :: 0 <= i < |request.questionAndAnswers| ==>
              request.questionAndAnswers[i]
              == QuestionAndAnswers(FirstAppearance(rows)[i], AnswerIdsOf(rows, FirstAppearance(rows)[i]))
  {
    var groups: seq<QuestionAndAnswers> := [];
    var i := 0;
    while i < |rows|
      invariant 0 <= i <= |rows|
      invariant groups == GroupRows(rows[..i])
    {
      assert rows[..i + 1][..i] == rows[..i];
      var row := rows[i];
      var k := 0;
      while k < |groups| && groups[k].questionId != row.questionId
        invariant 0 <= k <= |groups|
        invariant forall j :: 0 <= j < k ==> groups[j].questionId != row.questionId
      {
        k := k + 1;
      }
      if k == |groups| {
        groups := groups + [QuestionAndAnswers(row.questionId, [row.answerId])];
      } else {
        groups := groups[k := QuestionAndAnswers(row.questionId, groups[k].answers + [row.answerId])];
      }
      i := i + 1;
    }
    assert rows[..i] == rows;
    GroupRowsShape(rows);
    request := SubmitRequest(resultId, groups);
  }

  // ---------------------------------------------------------------------------
  // Question views and selection marks
  // ---------------------------------------------------------------------------

  /** An answer as a question response shows it; `isCorrect` is absent once
      stripped. */
  datatype AnswerView = AnswerView(id: string, content: string, isCorrect: Option<bool>, selected: bool)

  datatype QuestionView = QuestionView(id: string, content: string, answers: seq<AnswerView>)

  /** A question as the question responses list it: every answer with its
      correctness flag, nothing selected. */
  function ViewOf(q: Question): QuestionView {
    QuestionView(q.id, q.content,
                 seq(|q.answers|, j requires 0 <= j < |q.answers| =>
                   AnswerView(q.answers[j].id, q.answers[j].content, Some(q.answers[j].isCorrect), false)))
  }

  function Views(qs: seq<Question>): seq<QuestionView> {
    seq(|qs|, i requires 0 <= i < |qs| => ViewOf(qs[i]))
  }

  predicate RowMatches(row: AnswerRow, questionId: string, answerId: string, resultId: string) {
    row.questionId == questionId && row.answerId == answerId && row.testResultId == resultId
  }

  /** `anyMatch` over the rows. */
  function AnyMatch(rows: seq<AnswerRow>, questionId: string, answerId: string, resultId: string): (r: bool)
    ensures r <==> exists k :: 0 <= k < |rows| && RowMatches(rows[k], questionId, answerId, resultId)
  {
    if |rows| == 0 then false
    else
      RowMatches(rows[0], questionId, answerId, resultId) || AnyMatch(rows[1..], questionId, answerId, resultId)
  }

  /** The answers of a view with their selection flags set from the rows. */
  function MarkAnswers(questionId: string, answers: seq<AnswerView>, rows: seq<AnswerRow>, resultId: string): seq<AnswerView> {
    seq(|answers|, j requires 0 <= j < |answers| =>
      answers[j].(selected := AnyMatch(rows, questionId, answers[j].id, resultId)))
  }

  function MarkSelected(views: seq<QuestionView>, rows: seq<AnswerRow>, resultId: string): seq<QuestionView> {
    seq(|views|, i requires 0 <= i < |views| =>
      views[i].(answers := MarkAnswers(views[i].id, views[i].answers, rows, resultId)))
  }

  /** updateSelectedAnswers: every answer of every question is marked
      selected exactly when a row of this attempt pairs that question with
      that answer; nothing else in the views changes. */
  method UpdateSelectedAnswers(views: seq<QuestionView>, rows: seq<AnswerRow>, resultId: string)
    returns (marked: seq<QuestionView>)
    ensures |marked| == |views|
    ensures forall i :: 0 <= i < |views| ==>
              marked[i].id == views[i].id && marked[i].content == views[i].content
              && |marked[i].answers| == |views[i].answers|
    ensures forall i, j :: 0 <= i < |views| && 0 <= j < |views[i].answers| ==>
              marked[i].answers[j] == views[i].answers[j].(selected :=
                exists k :: 0 <= k < |rows| && RowMatches(rows[k], views[i].id, views[i].answers[j].id, resultId))
    ensures marked == MarkSelected(views, rows, resultId)
  {
    marked := views;
    for i := 0 to |views|
      invariant |marked| == |views|
      invariant forall k :: 0 <= k < i ==> marked[k] == MarkSelected(views, rows, resultId)[k]
      invariant forall k :: i <= k < |views| ==> marked[k] == views[k]
    {
      var q := marked[i];
      var answers := q.answers;
      for j := 0 to |answers|
        invariant |answers| == |q.answers|
        invariant forall k :: 0 <= k < j ==> answers[k] == MarkAnswers(q.id, q.answers, rows, resultId)[k]
        invariant forall k :: j <= k < |answers| ==> answers[k] == q.answers[k]
      {
        var isSelected := AnyMatch(rows, q.id, answers[j].id, resultId);
        answers := answers[j := answers[j].(selected := isSelected)];
      }
      marked := marked[i := q.(answers := answers)];
    }
  }

  // ---------------------------------------------------------------------------
  // The timeout rule
  // ---------------------------------------------------------------------------

  const TwoTo31: int := 0x8000_0000
  const TwoTo32: int := 0x1_0000_0000

  /** Java `int` arithmetic: the value wrapped into [-2^31, 2^31). */
  function ToInt32(x: int): (r: int)
    ensures -TwoTo31 <= r < TwoTo31
    ensures (x - r) % TwoTo32 == 0
    ensures -TwoTo31 <= x < TwoTo31 ==> r == x
  {
    var m := x % TwoTo32;
    if m >= TwoTo31 then m - TwoTo32 else m
  }

  /** The attempt has run out: more milliseconds have passed since it began
      than the test's duration in seconds times 1000, computed in `int`. */
  predicate TimedOut(now: int, attendedAt: int, duration: int) {
    now - attendedAt > ToInt32(duration * 1000)
  }

  /** Up to 2147483 seconds the duration converts to milliseconds without
      wrapping, and an attempt runs out strictly after that many milliseconds. */
  lemma TimedOutWithoutWrap(now: int, attendedAt: int, duration: int)
    requires 0 <= duration <= 2147483
    ensures TimedOut(now, attendedAt, duration) <==> now - attendedAt > duration * 1000
  {
  }

  /** From 2147484 up to 4294967 seconds the product lies in [2^31, 2^32) and
      wraps negative, so every attempt of such a test counts as run out from
      its first millisecond. */
  lemma LongDurationWraps(now: int, attendedAt: int, duration: int)
    requires 2147484 <= duration <= 4294967
    requires now >= attendedAt
    ensures ToInt32(duration * 1000) == duration * 1000 - TwoTo32 < 0
    ensures TimedOut(now, attendedAt, duration)
  {
  }

  /** At 4294968 seconds the product passes 2^32 and wraps back to a small
      positive limit: 704 milliseconds. */
  lemma LongerDurationWrapsBack(now: int, attendedAt: int)
    ensures ToInt32(4294968 * 1000) == 704
    ensures TimedOut(now, attendedAt, 4294968) <==> now - attendedAt > 704
  {
  }

  // ---------------------------------------------------------------------------
  // The latest ongoing attempt
  // ---------------------------------------------------------------------------

  predicate OngoingFor(r: TestResult, studentId: string, testId: string) {
    r.studentId == studentId && r.testId == testId && r.state == Ongoing
  }

  /** The first ongoing attempt of the student at the test with the latest
      start, if any. */
  function LatestOngoing(results: seq<TestResult>, studentId: string, testId: string): (r: Option<TestResult>)
    ensures r.Some? <==> exists k :: 0 <= k < |results| && OngoingFor(results[k], studentId, testId)
    ensures r.Some? ==> r.value in results && OngoingFor(r.value, studentId, testId)
                        && forall k :: 0 <= k < |results| && OngoingFor(results[k], studentId, testId)
                                       ==> results[k].attendedAt <= r.value.attendedAt
  {
    if |results| == 0 then None
    else
      var rest := LatestOngoing(results[1..], studentId, testId);
      assert forall k :: 1 <= k < |results| ==> results[k] == results[1..][k - 1];
      if OngoingFor(results[0], studentId, testId) && (rest.None? || rest.value.attendedAt <= results[0].attendedAt)
      then Some(results[0])
      else rest
  }
}
