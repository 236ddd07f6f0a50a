/** The grading half of the test service: pairing a submission with the
    test's questions, judging each question, counting correct questions and
    turning the count into a grade. Everything here is a pure function of the
    question list and the submission, as the stream pipelines of the service
    are. Grades are integer hundredths of a point (700 is 7.00). */
module Grading {

  /** An answer option as the teacher-side detail lists it, correctness flag included. */
  datatype Answer = Answer(id: string, content: string, isCorrect: bool)

  datatype Question = Question(id: string, content: string, answers: seq<Answer>)

  /** One entry of a submission: a question id and the answer ids chosen for it. */
  datatype QuestionAndAnswers = QuestionAndAnswers(questionId: string, answers: seq<string>)

  /** An answer of the submit response: its correctness flag and whether it was selected. */
  datatype MarkedAnswer = MarkedAnswer(id: string, content: string, correct: bool, selected: bool)

  datatype MarkedQuestion = MarkedQuestion(id: string, content: string, answers: seq<MarkedAnswer>)

  predicate DistinctIds(qs: seq<Question>) {
    forall i, j :: 0 <= i < j < |qs| ==> qs[i].id != qs[j].id
  }

  // ---------------------------------------------------------------------------
  // Pairing answers with questions
  // ---------------------------------------------------------------------------

  /** `List.indexOf`: the position of the first element equal to `q`, or -1. */
  function IndexOf(qs: seq<Question>, q: Question): (r: int)
    ensures -1 <= r < |qs|
    ensures r == -1 <==> q !in qs
    ensures r >= 0 ==> qs[r] == q && forall j :: 0 <= j < r ==> qs[j] != q
  {
    if |qs| == 0 then -1
    else if qs[0] == q then 0
    else
      var k := IndexOf(qs[1..], q);
      if k == -1 then -1 else k + 1
  }

  /** The answer ids of the submission entry at `index`, or none when the
      submission is shorter than that. */
  function SelectedAnswers(body: seq<QuestionAndAnswers>, index: nat): seq<string> {
    if |body| > index then body[index].answers else []
  }

  function MarkAnswer(a: Answer, selected: seq<string>): MarkedAnswer {
    MarkedAnswer(a.id, a.content, a.isCorrect, a.id in selected)
  }

  function MarkQuestion(q: Question, selected: seq<string>): MarkedQuestion {
    MarkedQuestion(q.id, q.content,
                   seq(|q.answers|, j requires 0 <= j < |q.answers| => MarkAnswer(q.answers[j], selected)))
  }

  /** Every question is marked against the submission entry found at its own
      `indexOf` position. */
  function ProcessQuestions(qs: seq<Question>, body: seq<QuestionAndAnswers>): seq<MarkedQuestion> {
    seq(|qs|, i requires 0 <= i < |qs| =>
      var k := IndexOf(qs, qs[i]);
      MarkQuestion(qs[i], SelectedAnswers(body, if k < 0 then 0 else k)))
  }

  /** With distinct question ids, the i-th submission entry is paired with the
      i-th question: an answer is selected exactly when its id is listed in
      that entry, and questions past the end of the submission have nothing
      selected. */
  lemma PositionalPairing(qs: seq<Question>, body: seq<QuestionAndAnswers>, i: nat, j: nat)
    requires DistinctIds(qs)
    requires i < |qs| && j < |qs[i].answers|
    ensures |ProcessQuestions(qs, body)| == |qs|
    ensures |ProcessQuestions(qs, body)[i].answers| == |qs[i].answers|
    ensures ProcessQuestions(qs, body)[i].id == qs[i].id
    ensures ProcessQuestions(qs, body)[i].answers[j].id == qs[i].answers[j].id
    ensures ProcessQuestions(qs, body)[i].answers[j].correct == qs[i].answers[j].isCorrect
    ensures ProcessQuestions(qs, body)[i].answers[j].selected
            == (i < |body| && qs[i].answers[j].id in body[i].answers)
  {
    assert IndexOf(qs, qs[i]) == i;
  }

  /** The question id written in a submission entry plays no part in marking:
      two submissions that list the same answer ids position by position are
      marked identically, whatever question ids they name. */
  lemma PairingIgnoresQuestionIds(qs: seq<Question>, body: seq<QuestionAndAnswers>, other: seq<QuestionAndAnswers>)
    requires |body| == |other|
    requires forall i :: 0 <= i < |body| ==> body[i].answers == other[i].answers
    ensures ProcessQuestions(qs, body) == ProcessQuestions(qs, other)
  {
    forall i | 0 <= i < |qs|
      ensures ProcessQuestions(qs, body)[i] == ProcessQuestions(qs, other)[i]
    {
      var k := IndexOf(qs, qs[i]);
      var n := if k < 0 then 0 else k;
      assert SelectedAnswers(body, n) == SelectedAnswers(other, n);
    }
  }

  // ---------------------------------------------------------------------------
  // Judging questions
  // ---------------------------------------------------------------------------

  /** Number of answers flagged correct. */
  function CountCorrect(answers: seq<MarkedAnswer>): nat {
    if |answers| == 0 then 0
    else (if answers[0].correct then 1 else 0) + CountCorrect(answers[1..])
  }

  /** Number of answers both flagged correct and selected. */
  function CountSelectedCorrect(answers: seq<MarkedAnswer>): nat {
    if |answers| == 0 then 0
    else (if answers[0].correct && answers[0].selected then 1 else 0) + CountSelectedCorrect(answers[1..])
  }

  /** A question is correct when as many correct answers were selected as
      there are correct answers. */
  predicate IsQuestionCorrect(q: MarkedQuestion) {
    CountCorrect(q.answers) == CountSelectedCorrect(q.answers)
  }

  lemma {:induction false} SelectedCorrectAtMost(answers: seq<MarkedAnswer>)
    ensures CountSelectedCorrect(answers) <= CountCorrect(answers)
  {
    if |answers| > 0 {
      SelectedCorrectAtMost(answers[1..]);
    }
  }

  lemma {:induction false} CountsAgreeIff(answers: seq<MarkedAnswer>)
    ensures CountCorrect(answers) == CountSelectedCorrect(answers)
            <==> forall j :: 0 <= j < |answers| && answers[j].correct ==> answers[j].selected
  {
    if |answers| > 0 {
      var rest := answers[1..];
      CountsAgreeIff(rest);
      SelectedCorrectAtMost(rest);
      assert forall j :: 1 <= j < |answers| ==> answers[j] == rest[j - 1];
      if answers[0].correct && !answers[0].selected {
        assert CountSelectedCorrect(answers) < CountCorrect(answers);
      } else {
        if forall j :: 0 <= j < |rest| && rest[j].correct ==> rest[j].selected {
          forall j | 0 <= j < |answers| && answers[j].correct
            ensures answers[j].selected
          {
            if j > 0 {
              assert rest[j - 1].correct;
            }
          }
        }
      }
    }
  }

  /** A question counts as correct exactly when every answer flagged correct
      is selected: extra wrong selections do not matter, and a question with
      no correct answer always counts. */
  lemma QuestionCorrectIff(q: MarkedQuestion)
    ensures IsQuestionCorrect(q)
            <==> forall j :: 0 <= j < |q.answers| && q.answers[j].correct ==> q.answers[j].selected
  {
    CountsAgreeIff(q.answers);
  }

  /** Number of correct questions. */
  function TotalCorrect(mqs: seq<MarkedQuestion>): (r: nat)
    ensures r <= |mqs|
  {
    if |mqs| == 0 then 0
    else (if IsQuestionCorrect(mqs[0]) then 1 else 0) + TotalCorrect(mqs[1..])
  }

  /** Every question is correct exactly when the count reaches the number of questions. */
  lemma {:induction false} AllCorrectIff(mqs: seq<MarkedQuestion>)
    ensures TotalCorrect(mqs) == |mqs| <==> forall i :: 0 <= i < |mqs| ==> IsQuestionCorrect(mqs[i])
  {
    if |mqs| > 0 {
      AllCorrectIff(mqs[1..]);
      assert forall i :: 1 <= i < |mqs| ==> mqs[i] == mqs[1..][i - 1];
    }
  }

  /** No question is correct exactly when the count is zero. */
  lemma {:induction false} NoneCorrectIff(mqs: seq<MarkedQuestion>)
    ensures TotalCorrect(mqs) == 0 <==> forall i :: 0 <= i < |mqs| ==> !IsQuestionCorrect(mqs[i])
  {
    if |mqs| > 0 {
      NoneCorrectIff(mqs[1..]);
      assert forall i :: 1 <= i < |mqs| ==> mqs[i] == mqs[1..][i - 1];
    }
  }

  // ---------------------------------------------------------------------------
  // The grade
  // ---------------------------------------------------------------------------

  /** correct / total * 10, rounded half up to two decimals, in hundredths.
      With no questions the floating-point quotient is NaN, which rounds to 0. */
  function Grade(correct: nat, total: nat): int {
    if total == 0 then 0 else (2000 * correct + total) / (2 * total)
  }

  /** The grade is the hundredth nearest to correct / total * 10, ties going
      up: its distance from the exact value is at most half a hundredth. */
  lemma GradeIsNearestHundredth(correct: nat, total: nat)
    requires total > 0
    ensures -(total as int) < 2 * (Grade(correct, total) * total - 1000 * correct) <= total
  {
    var d := 2 * total;
    var x := 2000 * correct + total;
    var g := x / d;
    var rem := x % d;
    assert x == g * d + rem && 0 <= rem < d;
    assert 2 * (g * total - 1000 * correct) == total - rem;
  }

  lemma MulMonotone(a: int, b: int, n: nat)
    requires a <= b
    ensures a * n <= b * n
  {
    assert b * n - a * n == (b - a) * n;
  }

  /** With at most as many correct questions as questions the grade lies in
      [0, 10]; all correct gives 10 and none correct gives 0. (The converses
      fail from 2000 questions on: 1999 of 2000 is 9.995, which rounds to 10.) */
  lemma GradeRange(correct: nat, total: nat)
    requires correct <= total
    ensures 0 <= Grade(correct, total) <= 1000
    ensures total > 0 && correct == total ==> Grade(correct, total) == 1000
    ensures correct == 0 ==> Grade(correct, total) == 0
  {
    if total > 0 {
      GradeIsNearestHundredth(correct, total);
      var g := Grade(correct, total);
      var n := total;
      if g < 0 {
        MulMonotone(g, -1, n);
      }
      if g > 1000 {
        MulMonotone(1001, g, n);
      }
      if correct == total && g < 1000 {
        MulMonotone(g, 999, n);
      }
      if correct == 0 && g > 0 {
        MulMonotone(1, g, n);
      }
    }
  }

  /** More correct questions never lower the grade. */
  lemma GradeMonotone(c1: nat, c2: nat, total: nat)
    requires c1 <= c2
    ensures Grade(c1, total) <= Grade(c2, total)
  {
    if total > 0 {
      var d := 2 * total;
      var x1, x2 := 2000 * c1 + total, 2000 * c2 + total;
      var g1, g2 := x1 / d, x2 / d;
      assert x1 == g1 * d + x1 % d && x2 == g2 * d + x2 % d;
      if g1 > g2 {
        assert g1 * d >= (g2 + 1) * d;
      }
    }
  }

  /** A submission in which every question has all of its correct answers
      selected scores full marks. */
  lemma FullMarksWhenAllSelected(qs: seq<Question>, body: seq<QuestionAndAnswers>)
    requires |qs| > 0
    requires var marked := ProcessQuestions(qs, body);
             forall i, j :: 0 <= i < |qs| && 0 <= j < |marked[i].answers| && marked[i].answers[j].correct
               ==> marked[i].answers[j].selected
    ensures Grade(TotalCorrect(ProcessQuestions(qs, body)), |qs|) == 1000
  {
    var marked := ProcessQuestions(qs, body);
    AllCorrectIff(marked);
    GradeRange(TotalCorrect(marked), |qs|);
    forall i | 0 <= i < |qs| {
      QuestionCorrectIff(marked[i]);
    }
  }

  /** The pass flag of the submit response: a grade of at least 4.00. */
  predicate PassedOnSubmit(grade: int) {
    grade >= 400
  }

  /** The pass flag of the result listing: a grade of at least 5.00. */
  predicate PassedInListing(grade: int) {
    grade >= 500
  }
}
