# Learning platform core: tests, lessons, accounts and the admin dashboard

A Dafny model of the core services of a learning-management back end. The
model covers four services.

- **Test service.** A student submits an attempt at a test. The service
  pairs the submission with the test's questions and marks every answer as
  selected or not. It judges each question, counts the correct ones and turns
  the count into a grade, then closes the attempt (ONGOING to FINISHED). The
  same service:
  - force-submits an attempt whose time has run out when its progress is
    asked for, after regrouping the attempt's saved answer rows into a
    submission;
  - marks saved selections on question views;
  - hides correctness flags from students unless the test shows results
    immediately;
  - lists a student's past attempts;
  - imports questions from the "Câu N:" / "A."–"D." text format.
- **Lesson service.** A new lesson takes the next index in its section.
  Each classroom keeps six per-type lesson counters, which creating, retyping
  and deleting lessons maintain. A quiz or exam lesson owns a test record.
  The section listing shows each role the lessons it may see, and students
  open lessons sequentially.
- **Authentication service.**
  - Registration, password login and Google login.
  - The confirmation-code machine. Codes expire after three minutes and go
    from UNUSED to USED. Verifying a code moves the user from INACTIVE to
    ACTIVE. A password reset deletes the spent code.
- **Admin service.**
  - The dashboard's merge of grouped query rows into a fixed Sunday..Saturday
    week.
  - Role change and account blocking.

Each service is a `class` whose fields are the repositories it writes,
held as sequences: test results and answer rows, lessons, classrooms and
content records, users and confirmations. The catalogue it only reads is
held in `const` fields. Every method is proved equal to a pure function of
the old state, or states its result outright. The properties the services
promise are proved as lemmas about those functions. Grades are integer
hundredths (700 is 7.00). The clock, generated ids and codes, and the
password encoder are parameters.

Modules and files:

- `common.dfy`: Option, errors and outcomes; first-match lookup and filtering.
- `grading.dfy`: pairing, judging, counting and the grade.
- `question_import.dfy`: the import grammar.
- `test_attempts.dfy`: answer rows, regrouping, marking and the timeout.
- `tests.dfy`: the test service.
- `lessons.dfy`: the lesson service.
- `users.dfy`: the user record and its lookups.
- `user_auth.dfy`: the authentication service.
- `admin.dfy`: the admin service.

Several behaviours of the code are kept as written, and lemmas show what
they mean:

- Submissions are paired with questions by position, not by question id.
- The "already finished" check runs after the answer rows have been saved.
- Saving an answer looks up the existing row with the test id in place of
  the result id, so in practice it always appends a row.
- An attempt passes at 4.00 in the submit response but at 5.00 in the
  result listing.
- The RESOURCE counter is never decremented.
- The progress view shows the correctness flags to the student while the
  attempt is running.

## Model

| member | source | states |
|---|---|---|
| Grading.IndexOf | src/main/java/com/example/learning_api/service/core/Impl/TestService.java:793-795 | `indexOf`: the first position holding the question, -1 exactly when it is absent |
| Grading.PositionalPairing | src/main/java/com/example/learning_api/service/core/Impl/TestService.java:789-842 | with distinct question ids, the i-th question is marked against the i-th submission entry: an answer is selected iff its id is listed there; questions past the end of the submission get nothing selected; ids and correctness flags are carried over |
| Grading.PairingIgnoresQuestionIds | src/main/java/com/example/learning_api/service/core/Impl/TestService.java:830-834 | the question ids written in a submission play no part: submissions listing the same answer ids position by position are marked identically |
| Grading.SelectedCorrectAtMost | src/main/java/com/example/learning_api/service/core/Impl/TestService.java:885-893 | at most as many selected correct answers as correct answers |
| Grading.CountsAgreeIff | src/main/java/com/example/learning_api/service/core/Impl/TestService.java:885-893 | the two counts agree iff every correct answer is selected |
| Grading.QuestionCorrectIff | src/main/java/com/example/learning_api/service/core/Impl/TestService.java:885-893 | a question is correct iff every answer flagged correct is selected; wrong extra selections do not matter, and a question with no correct answer always counts |
| Grading.TotalCorrect | src/main/java/com/example/learning_api/service/core/Impl/TestService.java:879-883 | the number of correct questions never exceeds the number of questions |
| Grading.AllCorrectIff | src/main/java/com/example/learning_api/service/core/Impl/TestService.java:879-893 | the count equals the number of questions iff every question is correct |
| Grading.NoneCorrectIff | src/main/java/com/example/learning_api/service/core/Impl/TestService.java:879-893 | the count is 0 iff no question is correct |
| Grading.GradeIsNearestHundredth | src/main/java/com/example/learning_api/service/core/Impl/TestService.java:904-907 | the grade is within half a hundredth of correct/total*10, ties rounded up |
| Grading.GradeRange | src/main/java/com/example/learning_api/service/core/Impl/TestService.java:904-907 | the grade lies in [0, 10]; all correct gives 10, none correct gives 0 |
| Grading.GradeMonotone | src/main/java/com/example/learning_api/service/core/Impl/TestService.java:904-907 | more correct questions never lower the grade |
| Grading.FullMarksWhenAllSelected | src/main/java/com/example/learning_api/service/core/Impl/TestService.java:789-907 | a submission selecting every correct answer of every question scores 10 |
| QuestionImport.SkipSpaces | src/main/java/com/example/learning_api/service/core/Impl/TestService.java:342 | `\s*`: a suffix of the text with no leading regex space |
| QuestionImport.SkipDigits | src/main/java/com/example/learning_api/service/core/Impl/TestService.java:342 | `\d*`: a suffix of the text with no leading digit |
| QuestionImport.TrimShape | src/main/java/com/example/learning_api/service/core/Impl/TestService.java:347 | `trim` keeps a contiguous stretch of the text and removes only blanks, leaving none at either end |
| QuestionImport.TrimKeeps | src/main/java/com/example/learning_api/service/core/Impl/TestService.java:347 | a text with no blank at either end is left as it is by `trim` |
| QuestionImport.FirstStart | src/main/java/com/example/learning_api/service/core/Impl/TestService.java:342 | the first line opening a block: every earlier line opens none |
| QuestionImport.BlocksCover | src/main/java/com/example/learning_api/service/core/Impl/TestService.java:342-346 | splitting into blocks loses and invents nothing: the blocks laid end to end are the text from the first opening line on |
| QuestionImport.BlocksWellFormed | src/main/java/com/example/learning_api/service/core/Impl/TestService.java:342-346 | every block starts with an opening line, and no other line of a block opens one |
| QuestionImport.BlocksAppend | src/main/java/com/example/learning_api/service/core/Impl/TestService.java:342-346 | splitting text that starts a new block after other text splits the two parts separately |
| QuestionImport.SplitBlocks | src/main/java/com/example/learning_api/service/core/Impl/TestService.java:342-346 | the line-by-line matcher loop produces exactly the specified blocks |
| QuestionImport.ParseAnswers | src/main/java/com/example/learning_api/service/core/Impl/TestService.java:368-382 | the answer matcher loop collects exactly the answers the grammar specifies, in order |
| QuestionImport.AnswersAtMostLabels | src/main/java/com/example/learning_api/service/core/Impl/TestService.java:368-382 | there are never more answers than label lines |
| QuestionImport.AnswerLineParses | src/main/java/com/example/learning_api/service/core/Impl/TestService.java:369-375 | a line "X. text" parses back to its text, with a trailing star read as the correct flag |
| QuestionImport.AnswersRoundTrip | src/main/java/com/example/learning_api/service/core/Impl/TestService.java:368-382 | answers written out one per line as "A." .. with a star on the correct ones parse back to the same answers |
| QuestionImport.ParseQuestions | src/main/java/com/example/learning_api/service/core/Impl/TestService.java:341-357 | the question matcher loop yields exactly the specified questions, each with its parsed answer group |
| QuestionImport.QuestionLinesParse | src/main/java/com/example/learning_api/service/core/Impl/TestService.java:341-357 | one written-out question, header plus answer lines, parses back to itself |
| QuestionImport.QuestionsRoundTrip | src/main/java/com/example/learning_api/service/core/Impl/TestService.java:341-392 | questions written out header by header, each followed by its answers, import back to the same questions |
| TestAttempts.SelectionsMembers | src/main/java/com/example/learning_api/service/core/Impl/TestService.java:836-846 | a row is written exactly for each answer marked selected, tagged with its question |
| TestAttempts.SaveStudentAnswer | src/main/java/com/example/learning_api/service/core/Impl/TestService.java:860-877 | with no row under the lookup key the new row is appended; otherwise the first row under the key is overwritten in place and nothing else changes |
| TestAttempts.SavingAppends | src/main/java/com/example/learning_api/service/core/Impl/TestService.java:860-877 | because the lookup key carries the test id, saving appends one new row per selection, whatever rows already exist |
| TestAttempts.FirstAppearanceMembers | src/main/java/com/example/learning_api/service/core/Impl/TestService.java:702-717 | the regrouped question ids are exactly those of the rows, each once |
| TestAttempts.AnswerIdsMembers | src/main/java/com/example/learning_api/service/core/Impl/TestService.java:702-717 | an answer id is grouped under a question iff some row pairs them |
| TestAttempts.NoAnswerIdsWithoutRows | src/main/java/com/example/learning_api/service/core/Impl/TestService.java:702-717 | a question with no rows collects no answer ids |
| TestAttempts.GroupRowsShape | src/main/java/com/example/learning_api/service/core/Impl/TestService.java:702-723 | one group per distinct question id, in order of first appearance, holding that question's answer ids in row order |
| TestAttempts.ConvertToSubmitRequest | src/main/java/com/example/learning_api/service/core/Impl/TestService.java:702-723 | the loop builds the request for the attempt with exactly those groups |
| TestAttempts.AnyMatch | src/main/java/com/example/learning_api/service/core/Impl/TestService.java:752-757 | `anyMatch` holds iff some row matches the question, answer and result |
| TestAttempts.UpdateSelectedAnswers | src/main/java/com/example/learning_api/service/core/Impl/TestService.java:747-762 | every answer of every question keeps its id and flag and is selected iff a row of the attempt pairs it with its question |
| TestAttempts.ToInt32 | src/main/java/com/example/learning_api/service/core/Impl/TestService.java:683 | Java `int` arithmetic: the value wrapped into 32 bits, unchanged when it fits |
| TestAttempts.TimedOutWithoutWrap | src/main/java/com/example/learning_api/service/core/Impl/TestService.java:683 | up to 2147483 seconds the timeout is exactly now - attendedAt > duration*1000 (strict) |
| TestAttempts.LongDurationWraps | src/main/java/com/example/learning_api/service/core/Impl/TestService.java:683 | for durations from 2147484 to 4294967 seconds, duration*1000 wraps to a negative int and every attempt counts as timed out |
| TestAttempts.LongerDurationWrapsBack | src/main/java/com/example/learning_api/service/core/Impl/TestService.java:683 | at 4294968 seconds the product wraps back to 704, so the attempt times out after 704 ms |
| TestAttempts.LatestOngoing | src/main/java/com/example/learning_api/service/core/Impl/TestService.java:675-681 | an attempt is found iff the student has an ongoing attempt at the test, and it is the one with the latest attendedAt |
| Tests.SubmitClosesAttempt | src/main/java/com/example/learning_api/service/core/Impl/TestService.java:766-782 | submitting succeeds iff the attempt and its test exist, the test is viewable and the attempt is ongoing; it then finishes that attempt only, with the grade of its correct-question count in [0, 10], passed at 4.00, the question count is the test's and the correct count is the number of questions the marking found correct, at most the question count; a failure changes no attempt |
| Tests.FinishedIsNeverRegraded | src/main/java/com/example/learning_api/service/core/Impl/TestService.java:776-778 | a finished attempt is refused and keeps its state and grade |
| Tests.RefusedSubmissionStillWritesRows | src/main/java/com/example/learning_api/service/core/Impl/TestService.java:774-778 | a refused submission still appends a row per selected answer |
| Tests.SecondSubmitFails | src/main/java/com/example/learning_api/service/core/Impl/TestService.java:766-782 | after a successful submission, a second one for the attempt fails with "Test is already finished" and changes no attempt |
| Tests.ResultIndexOfMember | src/main/java/com/example/learning_api/service/core/Impl/TestService.java:784-787 | with distinct ids, looking up an attempt's id finds that attempt |
| Tests.ProgressEmptyIffTimedOut | src/main/java/com/example/learning_api/service/core/Impl/TestService.java:672-701 | with an ongoing attempt at a viewable test, progress is empty iff the attempt has timed out, and it is then closed; otherwise the attempt is returned and nothing changes |
| Tests.ProgressRevealsCorrectness | src/main/java/com/example/learning_api/service/core/Impl/TestService.java:691-697 | the progress view of a running attempt carries every answer's correctness flag |
| Tests.ForcedSelection | src/main/java/com/example/learning_api/service/core/Impl/TestService.java:684-685 | a forced submission marks the i-th question with the answers of the i-th question the student answered first |
| Tests.ForcedSelectionInOrder | src/main/java/com/example/learning_api/service/core/Impl/TestService.java:684-685 | when questions were answered in test order, a forced submission selects an answer iff a row pairs it with its own question |
| Tests.SkippedQuestionShiftsSelections | src/main/java/com/example/learning_api/service/core/Impl/TestService.java:684-685 | skipping the first of two questions shifts the saved answer onto it, so a correct answer scores 0 |
| Tests.StudentView | src/main/java/com/example/learning_api/service/core/Impl/TestService.java:411-424 | a question as a student sees it keeps its ids; correctness flags are kept when results are shown immediately and removed otherwise |
| Tests.ResultViewOf | src/main/java/com/example/learning_api/service/core/Impl/TestService.java:631-666 | a listed attempt keeps its test, grade and finish time, shows every question, and passes iff its grade is at least 5.00 |
| Tests.ListingMayContradictSubmit | src/main/java/com/example/learning_api/service/core/Impl/TestService.java:655 | an attempt graded from 4.00 up to 5.00 is reported passed on submit and not passed in the listing; passing in the listing implies passing on submit |
| Tests.TestService.SubmitTest | src/main/java/com/example/learning_api/service/core/Impl/TestService.java:766-927 | saving rows one by one, the method leaves exactly the outcome, attempts and rows of the submit specification |
| Tests.TestService.SaveSelections | src/main/java/com/example/learning_api/service/core/Impl/TestService.java:835-846 | saving the selected answers one by one leaves the attempts as they were and the rows those of saving each selection in order |
| Tests.TestService.GetProgress | src/main/java/com/example/learning_api/service/core/Impl/TestService.java:672-723 | the method, regrouping the rows and force-submitting, leaves exactly the outcome and state of the progress specification |
| Tests.TestService.GetTestDetail | src/main/java/com/example/learning_api/service/core/Impl/TestService.java:405-429 | unknown id: "Test not found with id: …"; missing status or show-result type: null reference; otherwise every question in its student view, the question count, and a missing attempt limit reported as 1 |
| Tests.TestService.GetTestResult | src/main/java/com/example/learning_api/service/core/Impl/TestService.java:617-670 | no attempts: empty; unknown test: "Test not found"; an unfinished attempt: null reference; otherwise each attempt in stored order as its listed view |
| Lessons.Added | src/main/java/com/example/learning_api/service/core/Impl/LessonService.java:69-148 | creating a lesson adds 1 to its type's counter, a null one read as 0, and changes no other counter |
| Lessons.Removed | src/main/java/com/example/learning_api/service/core/Impl/LessonService.java:318-348 | deleting takes 1 from its type's counter, a null one read as 1; RESOURCE has no branch and leaves all counters; no other counter changes |
| Lessons.RemoveUndoesAdd | src/main/java/com/example/learning_api/service/core/Impl/LessonService.java:69-348 | deleting undoes creating for every type but RESOURCE, whose counter keeps growing |
| Lessons.TypeChangeMovesOneUnit | src/main/java/com/example/learning_api/service/core/Impl/LessonService.java:186-299 | retyping adds one to the new type's counter and takes one from the old type's, except that a RESOURCE counter is never decremented (retyping away from RESOURCE leaves it, RESOURCE to RESOURCE adds one); no other counter changes |
| Lessons.MaxIndex | src/main/java/com/example/learning_api/service/core/Impl/LessonService.java:61 | the largest index of the section's lessons; none iff the section is empty |
| Lessons.NextIndex | src/main/java/com/example/learning_api/service/core/Impl/LessonService.java:61-63 | a new index is above every index in the section, 0 for an empty section, and otherwise one past the largest |
| Lessons.NewContent | src/main/java/com/example/learning_api/service/core/Impl/LessonService.java:69-147 | each type creates its own record for the lesson; a quiz makes a test shown immediately and an exam one shown after the test, both ONGOING and owned by the classroom's teacher; a deadline is ONGOING and filed under the classroom |
| Lessons.RetypedContent | src/main/java/com/example/learning_api/service/core/Impl/LessonService.java:217-299 | a type change creates the same record as creating a lesson of the new type, except that a new deadline gets no classroom |
| Lessons.Without | src/main/java/com/example/learning_api/service/core/Impl/LessonService.java:318-348 | deleting a lesson's content removes exactly the records of its type for that lesson, except for RESOURCE, where nothing is removed |
| Lessons.CreateError | src/main/java/com/example/learning_api/service/core/Impl/LessonService.java:44-58 | creation is refused, with the message of the first failed check, unless name, section id, an existing section and a type are all given |
| Lessons.Patched | src/main/java/com/example/learning_api/service/core/Impl/LessonService.java:176-183 | an update sets exactly the fields the request carries |
| Lessons.Insert | src/main/java/com/example/learning_api/service/core/Impl/LessonService.java:390 | inserting into the ordered listing adds the lesson and nothing else |
| Lessons.InsertSorted | src/main/java/com/example/learning_api/service/core/Impl/LessonService.java:390 | inserting keeps the listing ordered by index |
| Lessons.SortByIndex | src/main/java/com/example/learning_api/service/core/Impl/LessonService.java:390 | the listing sort is a permutation |
| Lessons.SortSorted | src/main/java/com/example/learning_api/service/core/Impl/LessonService.java:390 | the listing sort orders by ascending index |
| Lessons.ListingShowsVisibleLessons | src/main/java/com/example/learning_api/service/core/Impl/LessonService.java:382-390 | the listing is ordered by index and holds a lesson iff it is in the section and is PUBLIC or the role is TEACHER |
| Lessons.AccessFollowsCompletion | src/main/java/com/example/learning_api/service/core/Impl/LessonService.java:408-417 | a student opens a lesson after the first only if the lesson at the previous index is completed, and always then when that lesson is the only one at the index |
| Lessons.LessonService.CreateLesson | src/main/java/com/example/learning_api/service/core/Impl/LessonService.java:42-170 | validation failures change nothing; otherwise the lesson is saved at the next index with PUBLIC as the default status; with its classroom, the type's counter and the content record follow; without one, the lesson stays and "No value present" is raised |
| Lessons.LessonService.UpdateLesson | src/main/java/com/example/learning_api/service/core/Impl/LessonService.java:173-310 | unknown lesson: "Lesson not found"; missing section or classroom: nothing saved; otherwise the patched lesson, and on a type change the old type's record and one unit of its counter removed, except for RESOURCE, whose record and counter are left alone, and the new type's record (a deadline without a classroom) and count added |
| Lessons.LessonService.DeleteLesson | src/main/java/com/example/learning_api/service/core/Impl/LessonService.java:313-355 | unknown lesson: "Lesson not found"; otherwise the lesson is removed, and so are its content record and one unit of its type's counter, except for RESOURCE, whose record and counter are left alone |
| Lessons.LessonService.GetLessonBySectionId | src/main/java/com/example/learning_api/service/core/Impl/LessonService.java:380-430 | the visible lessons in index order, each with whether it can be opened and is completed; an unknown section fails once there is a lesson |
| Lessons.LessonService.ViewLessons | src/main/java/com/example/learning_api/service/core/Impl/LessonService.java:392-425 | one view per listed lesson, in order, with its access and completion flags for the section's classroom |
| Common.FirstWhere | src/main/java/com/example/learning_api/service/core/Impl/UserAuthService.java:76 | the index of the first element satisfying the predicate, -1 iff none does; every single-record lookup (user by id, by email, by email and authentication type, confirmation by email, by email and code) is this search |
| UserAuth.Upserted | src/main/java/com/example/learning_api/service/core/Impl/UserAuthService.java:225-244 | afterwards the email's confirmation holds the code and expires three minutes from now; a new one is UNUSED and an existing one keeps its status; other emails' confirmations are unchanged and there is still at most one per email |
| UserAuth.VerifyActivates | src/main/java/com/example/learning_api/service/core/Impl/UserAuthService.java:291-310 | a code is accepted iff the email's confirmation and user exist, the code matches and has not expired; the user then becomes ACTIVE and the confirmation USED, nothing else changes; a rejected code changes nothing |
| UserAuth.VerifiedCodeResetsOnce | src/main/java/com/example/learning_api/service/core/Impl/UserAuthService.java:314-327 | after verification the reset succeeds, stores the encoded password and deletes the confirmation; the same code is then refused |
| UserAuth.VerifiedCodeIsUsed | src/main/java/com/example/learning_api/service/core/Impl/UserAuthService.java:291-310 | after a successful verification the code is found USED for the same email and user, with still one confirmation per email |
| UserAuth.UsedCodeResetsOnce | src/main/java/com/example/learning_api/service/core/Impl/UserAuthService.java:314-327 | a USED code resets the password once, deletes the email's only confirmation and is refused afterwards |
| UserAuth.RegistrationActivation | src/main/java/com/example/learning_api/service/core/Impl/UserAuthService.java:108-129 | registration succeeds iff the email is unused; a code can then be sent and verified, after which no registration code is issued ("User already Active") |
| UserAuth.GoogleAccountReused | src/main/java/com/example/learning_api/service/core/Impl/UserAuthService.java:142-183 | a first Google login creates one ACTIVE USER google account; a later Google login with the email reuses it and creates no other |
| UserAuth.UserAuthService.RegisterUser | src/main/java/com/example/learning_api/service/core/Impl/UserAuthService.java:108-129 | leaves exactly the outcome and accounts of the registration specification |
| UserAuth.UserAuthService.LoginUser | src/main/java/com/example/learning_api/service/core/Impl/UserAuthService.java:75-103 | unknown email: "Account not found"; mismatched password: "Password is incorrect"; otherwise the role, the status with null read as INACTIVE, and the teacher or student profile |
| UserAuth.UserAuthService.LoginGoogleUser | src/main/java/com/example/learning_api/service/core/Impl/UserAuthService.java:142-183 | leaves exactly the outcome and users of the Google login specification |
| UserAuth.UserAuthService.CreateOrUpdateConfirmationInfo | src/main/java/com/example/learning_api/service/core/Impl/UserAuthService.java:225-244 | the confirmations become the upserted ones; users are unchanged |
| UserAuth.UserAuthService.SendCodeToRegister | src/main/java/com/example/learning_api/service/core/Impl/UserAuthService.java:246-257 | a code is issued only to an INACTIVE user; "User already Active" for ACTIVE; "Not Found User with email" otherwise |
| UserAuth.UserAuthService.SendCodeForgotPassword | src/main/java/com/example/learning_api/service/core/Impl/UserAuthService.java:260-267 | a code is issued only to an account registered with a password |
| UserAuth.UserAuthService.VerifyCodeByEmail | src/main/java/com/example/learning_api/service/core/Impl/UserAuthService.java:291-310 | leaves exactly the outcome and accounts of the verification specification |
| UserAuth.UserAuthService.ChangePasswordForgot | src/main/java/com/example/learning_api/service/core/Impl/UserAuthService.java:314-327 | leaves exactly the outcome and accounts of the reset specification |
| Admin.CountFor | src/main/java/com/example/learning_api/service/core/Impl/AdminService.java:103-108 | a day counts the first query row with its name, 0 when there is none |
| Admin.DayIndex | src/main/java/com/example/learning_api/service/core/Impl/AdminService.java:104-106 | the position of the first row named after the day, every row before it named otherwise; -1 when no row has the name |
| Admin.SetCounts | src/main/java/com/example/learning_api/service/core/Impl/AdminService.java:103-108 | every default entry, at 0, keeps its name and takes the count of the first row with that name, staying at 0 when there is none |
| Admin.OtherRowsIgnored | src/main/java/com/example/learning_api/service/core/Impl/AdminService.java:103-108 | rows named after no weekday leave every day's count unchanged |
| Admin.FilterKeepsCount | src/main/java/com/example/learning_api/service/core/Impl/AdminService.java:103-108 | dropping only rows of other names leaves a day's count as it was |
| Admin.FilterKeepsFirst | src/main/java/com/example/learning_api/service/core/Impl/AdminService.java:103-108 | dropping rows keeps the first row of a day first among its rows |
| Admin.FirstRowWins | src/main/java/com/example/learning_api/service/core/Impl/AdminService.java:103-108 | a later row for a day already present does not change its count |
| Admin.MergeWeek | src/main/java/com/example/learning_api/service/core/Impl/AdminService.java:90-108 | exactly seven entries, Sunday to Saturday, each with its day's count |
| Admin.Dashboard | src/main/java/com/example/learning_api/service/core/Impl/AdminService.java:90-129 | both the test and the classroom weeks follow the same seven-day, first-match-else-0 rule |
| Admin.RoleChanged | src/main/java/com/example/learning_api/service/core/Impl/AdminService.java:34-45 | only the role of the user with the id changes; an unknown id changes nothing |
| Admin.AccountBlocked | src/main/java/com/example/learning_api/service/core/Impl/AdminService.java:47-59 | the user is kept and marked BLOCKED, nothing else changes; an unknown id changes nothing |
| Admin.BlockingKeepsAccount | src/main/java/com/example/learning_api/service/core/Impl/AdminService.java:47-59 | a blocked account stays findable with every field but its status unchanged, and blocking twice is blocking once |
| Admin.AdminService.ChangeRole | src/main/java/com/example/learning_api/service/core/Impl/AdminService.java:34-45 | the users become the role-changed users |
| Admin.AdminService.DeleteAccount | src/main/java/com/example/learning_api/service/core/Impl/AdminService.java:47-59 | the users become the blocked users |

## Left out

- Persistence and framework plumbing. Repositories are sequences with first-match lookups. A single-result lookup that would throw on duplicate matches is modelled as returning the first match.
- Exception kinds and messages. Every caught exception is rethrown as an `IllegalArgumentException` or `CustomException` carrying the original message. The model keeps the original kind and message: `Rejected`, `NotFound` or `Unauthorized` with the message, or `NullReference` for a null dereference. The text of null-pointer messages is not modelled.
- Floating point. The grade is a `double` rounded to two decimals. It is modelled as integer hundredths, rounded half up, which agrees with `Math.round` on the exact quotient. Binary rounding of the quotient itself is not modelled.
- Tests.TestService.GetTestResult: the stored grade of an attempt is an integer in the model, never null; a null grade would throw while the listing is built. The total-correct and total-question counts of each listed attempt come from counting queries and are left out. The `testId == null` early return is not modelled, because strings are never null here.
- Timestamps. They are integer milliseconds. The `Long.parseLong` of attendedAt and its failure on malformed text are not modelled. The "latest" attempt is chosen by comparing attendedAt as a number, whereas the query sorts it as a string.
- TestAttempts.ToInt32 models the 32-bit `duration * 1000`. Lesson counters and the index `max + 1` are unbounded integers; their Java `Integer` overflow is not modelled.
- QuestionImport: the text is taken as already split at line feeds. The model does not capture:
  - `\r` line terminators;
  - a header whose text sits on the next line;
  - labels in the middle of a line, which the `\b` boundary can also match;
  - the regex's behaviour on other malformed input.
- QuestionImport.AnswerOf: an answer label with empty text yields no answer, whereas the program's lazy match runs on over the next label and keeps it as text: "A.\nB. y" gives one answer "B. y" there and one answer "y" here.
- QuestionImport.QuestionOf: a header with no answer text is dropped, whereas the program's match needs one character after the header line. It merges the next block into it: "Câu 1: a\nCâu 2: b\nA. x" gives question "a" with answer "x" there and question "b" with answer "x" here. A final header followed by an empty line, "Câu 1: a\n\n", gives question "a" with no answers there and nothing here.

  PDF and DOCX extraction, `importTest` and `saveQuestions` are I/O.
- The file and image attachments (sources) added to questions and answers, and every Cloudinary upload or removal, including `removeFile`.
- The TestService operations other than those above: `createTest`, `updateTest`, `deleteTest`, `getTests`, `getTestsByClassroomId`, `getTestInProgress`, `getTestOnSpecificDayByStudentId` and `getTestDetailForTeacher` as an endpoint. They are query and CRUD plumbing. `submitTest` relies on the teacher view of a test only for the null checks that view performs (teacher id, status, show-result type), and the model keeps those.
- Attempt start, limit enforcement, save-progress and all statistics: TestResultService is not part of this model.
- Lessons.Without: `deleteTestByLessonId` lives in a part of the test service that is not part of this model. It is modelled as removing that lesson's quiz tests, in the same way the exam branch removes its exam tests.
- The detail view `getLessonWithResourcesAndMediaAndSubstances`, and the deadline files, quizzes and exams attached to each listed lesson. In the listing, a lesson with no detail row would fail with a null reference; that is not modelled.
- Parsing of role, status and type strings (`valueOf`, `toString` comparisons). Roles, statuses and lesson types are datatypes; the role passed to the lesson listing stays a string compared with "TEACHER".
- Security and messaging: JWT issuing, `refreshToken`, token storage and revocation, the authentication manager, OAuth attribute extraction and mail sending. Password hashing and matching are the service's function fields `encode` and `matches`.
- The admin dashboard's hard-coded date range, its totals from repository sizes, and the grouped queries themselves, whose rows are inputs.
- Notifications and scheduled jobs.
- Concurrency. The double-submit guard is a read followed by a write, with no locking. The model is sequential and claims no atomicity.
