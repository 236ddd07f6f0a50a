/** Lesson bookkeeping: the index a new lesson takes in its section, the six
    per-type counters a classroom keeps, the content record each lesson type
    creates, and which lessons a user may see and open in a section. */
module Lessons {
  import opened Common
  import opened TestAttempts

  datatype LessonType = Media | Quiz | Exam | Resource | Substance | Deadline

  datatype LessonStatus = Public | Private

  datatype Lesson = Lesson(id: string, sectionId: string, name: string, description: Option<string>,
                           status: LessonStatus, index: int, lessonType: LessonType)

  datatype Section = Section(id: string, classRoomId: string)

  /** The counters of a classroom, each of which may be null. */
  datatype Counters = Counters(totalVideo: Option<int>, totalQuiz: Option<int>, totalExam: Option<int>,
                               totalResource: Option<int>, totalDocument: Option<int>, totalAssignment: Option<int>)

  datatype Classroom = Classroom(id: string, teacherId: Option<string>, counters: Counters)

  const Ongoing := "ONGOING"

  /** The record a lesson of each type owns: a media item, a test (quiz or
      exam), a resource, a document or a deadline. */
  datatype Content =
    | MediaContent(lessonId: string, name: string, description: Option<string>)
    | TestContent(lessonId: string, classroomId: string, teacherId: Option<string>, name: string,
                  description: Option<string>, showResultType: ShowResultType, status: string)
    | ResourceContent(lessonId: string, name: string, description: Option<string>)
    | SubstanceContent(lessonId: string, name: string)
    | DeadlineContent(lessonId: string, classroom: Option<string>, title: string, description: Option<string>,
                      status: string)

  /** Whether a progress record marks the lesson completed by the student in the classroom. */
  datatype Completion = Completion(studentId: string, classroomId: string, lessonId: string)

  // ---------------------------------------------------------------------------
  // Counters
  // ---------------------------------------------------------------------------

  /** The counter kept for each lesson type. */
  function CounterOf(c: Counters, t: LessonType): Option<int> {
    match t
    case Media => c.totalVideo
    case Quiz => c.totalQuiz
    case Exam => c.totalExam
    case Resource => c.totalResource
    case Substance => c.totalDocument
    case Deadline => c.totalAssignment
  }

  function WithCounter(c: Counters, t: LessonType, v: int): Counters {
    match t
    case Media => c.(totalVideo := Some(v))
    case Quiz => c.(totalQuiz := Some(v))
    case Exam => c.(totalExam := Some(v))
    case Resource => c.(totalResource := Some(v))
    case Substance => c.(totalDocument := Some(v))
    case Deadline => c.(totalAssignment := Some(v))
  }

  /** The create rule: the counter of the lesson's type, a null one read as
      0, goes up by one, and no other counter changes. */
  function Added(c: Counters, t: LessonType): (r: Counters)
    ensures CounterOf(r, t) == Some(CounterOf(c, t).GetOr(0) + 1)
    ensures forall u :: u != t ==> CounterOf(r, u) == CounterOf(c, u)
  {
    WithCounter(c, t, CounterOf(c, t).GetOr(0) + 1)
  }

  /** The delete rule: the counter of the lesson's type, a null one read as
      1, goes down by one, and no other counter changes. Resources have no
      branch, so their counter is left alone. */
  function Removed(c: Counters, t: LessonType): (r: Counters)
    ensures t == Resource ==> r == c
    ensures t != Resource ==> CounterOf(r, t) == Some(CounterOf(c, t).GetOr(1) - 1)
    ensures forall u :: u != t ==> CounterOf(r, u) == CounterOf(c, u)
  {
    if t == Resource then c else WithCounter(c, t, CounterOf(c, t).GetOr(1) - 1)
  }

  lemma CountersEqual(c: Counters, d: Counters)
    requires forall u :: CounterOf(c, u) == CounterOf(d, u)
    ensures c == d
  {
    assert CounterOf(c, Media) == CounterOf(d, Media);
    assert CounterOf(c, Quiz) == CounterOf(d, Quiz);
    assert CounterOf(c, Exam) == CounterOf(d, Exam);
    assert CounterOf(c, Resource) == CounterOf(d, Resource);
    assert CounterOf(c, Substance) == CounterOf(d, Substance);
    assert CounterOf(c, Deadline) == CounterOf(d, Deadline);
  }

  /** Deleting a lesson undoes creating one of the same type, except for
      resources, whose counter keeps the increment; a null counter comes
      back as 0. */
  lemma RemoveUndoesAdd(c: Counters, t: LessonType)
    ensures t != Resource && CounterOf(c, t).Some? ==> Removed(Added(c, t), t) == c
    ensures t != Resource && CounterOf(c, t).None? ==> Removed(Added(c, t), t) == WithCounter(c, t, 0)
    ensures CounterOf(Removed(Added(c, Resource), Resource), Resource) == Some(CounterOf(c, Resource).GetOr(0) + 1)
  {
    if t != Resource && CounterOf(c, t).Some? {
      CountersEqual(Removed(Added(c, t), t), c);
    }
    if t != Resource && CounterOf(c, t).None? {
      CountersEqual(Removed(Added(c, t), t), WithCounter(c, t, 0));
    }
  }

  /** Changing a lesson to the type it already has leaves the counters as
      they were when its counter is set, except for resources, which gain
      one. Changing between two types adds one unit to the new counter and
      takes one from the old counter, except that a resource counter is
      never decremented; nothing else changes. */
  lemma TypeChangeMovesOneUnit(c: Counters, from: LessonType, to: LessonType)
    ensures from == to && from != Resource && CounterOf(c, from).Some? ==> Added(Removed(c, from), to) == c
    ensures from != to && from != Resource ==>
              CounterOf(Added(Removed(c, from), to), from) == Some(CounterOf(c, from).GetOr(1) - 1)
    ensures from != to ==> CounterOf(Added(Removed(c, from), to), to) == Some(CounterOf(c, to).GetOr(0) + 1)
    ensures from == Resource && to != Resource ==>
              CounterOf(Added(Removed(c, from), to), Resource) == CounterOf(c, Resource)
    ensures from == Resource && to == Resource ==>
              CounterOf(Added(Removed(c, from), to), Resource) == Some(CounterOf(c, Resource).GetOr(0) + 1)
    ensures forall u :: u != from && u != to ==> CounterOf(Added(Removed(c, from), to), u) == CounterOf(c, u)
  {
    if from == to && from != Resource && CounterOf(c, from).Some? {
      CountersEqual(Added(Removed(c, from), to), c);
    }
  }

  // ---------------------------------------------------------------------------
  // Index and content of a new lesson
  // ---------------------------------------------------------------------------

  predicate InSection(lessons: seq<Lesson>, sectionId: string, i: int) {
    0 <= i < |lessons| && lessons[i].sectionId == sectionId
  }

  /** The largest index among the lessons of a section, none for an empty section. */
  function MaxIndex(lessons: seq<Lesson>, sectionId: string): (m: Option<int>)
    ensures m.None? <==> forall i :: !InSection(lessons, sectionId, i)
    ensures m.Some? ==> exists i :: InSection(lessons, sectionId, i) && lessons[i].index == m.value
    ensures m.Some? ==> forall i :: InSection(lessons, sectionId, i) ==> lessons[i].index <= m.value
  {
    if |lessons| == 0 then None
    else
      var last := lessons[|lessons| - 1];
      var init := lessons[..|lessons| - 1];
      var m := MaxIndex(init, sectionId);
      assert forall i :: InSection(init, sectionId, i) <==> 0 <= i < |init| && InSection(lessons, sectionId, i);
      assert forall i :: 0 <= i < |init| ==> init[i] == lessons[i];
      if last.sectionId != sectionId then m
      else if m.Some? && m.value >= last.index then m
      else
        assert InSection(lessons, sectionId, |lessons| - 1);
        Some(last.index)
  }

  /** A new lesson's index: one past the section's largest, or 0 for an
      empty section. It is above every index in the section and, in a
      non-empty section, directly follows one of them. */
  function NextIndex(lessons: seq<Lesson>, sectionId: string): (r: int)
    ensures forall i :: InSection(lessons, sectionId, i) ==> lessons[i].index < r
    ensures (forall i :: !InSection(lessons, sectionId, i)) ==> r == 0
    ensures (exists i :: InSection(lessons, sectionId, i)) ==>
              exists i :: InSection(lessons, sectionId, i) && lessons[i].index == r - 1
  {
    match MaxIndex(lessons, sectionId)
    case None => 0
    case Some(m) => m + 1
  }

  /** The content type a record belongs to; tests shown immediately are quizzes. */
  function KindOf(c: Content): LessonType {
    match c
    case MediaContent(_, _, _) => Media
    case TestContent(_, _, _, _, _, show, _) => if show == ShowResultImmediately then Quiz else Exam
    case ResourceContent(_, _, _) => Resource
    case SubstanceContent(_, _) => Substance
    case DeadlineContent(_, _, _, _, _) => Deadline
  }

  /** The record a lesson of each type creates, named after the lesson.
      A quiz is a test shown immediately and an exam a test shown after the
      test, both ongoing and owned by the classroom's teacher. */
  function NewContent(lesson: Lesson, room: Classroom): (c: Content)
    ensures c.lessonId == lesson.id && KindOf(c) == lesson.lessonType
    ensures lesson.lessonType == Quiz <==> c.TestContent? && c.showResultType == ShowResultImmediately
    ensures lesson.lessonType == Exam <==> c.TestContent? && c.showResultType == ShowResultAfterTest
    ensures c.TestContent? ==> c.status == Ongoing && c.teacherId == room.teacherId && c.classroomId == room.id
    ensures c.DeadlineContent? ==> c.status == Ongoing && c.classroom == Some(room.id)
  {
    match lesson.lessonType
    case Media => MediaContent(lesson.id, lesson.name, lesson.description)
    case Quiz => TestContent(lesson.id, room.id, room.teacherId, lesson.name, lesson.description,
                             ShowResultImmediately, Ongoing)
    case Exam => TestContent(lesson.id, room.id, room.teacherId, lesson.name, lesson.description,
                             ShowResultAfterTest, Ongoing)
    case Resource => ResourceContent(lesson.id, lesson.name, lesson.description)
    case Substance => SubstanceContent(lesson.id, lesson.name)
    case Deadline => DeadlineContent(lesson.id, Some(room.id), lesson.name, lesson.description, Ongoing)
  }

  /** The record a type change creates: the one a new lesson of that type
      gets, except that a deadline is left without a classroom, since the
      update path never sets it. */
  function RetypedContent(lesson: Lesson, room: Classroom): (c: Content)
    ensures lesson.lessonType != Deadline ==> c == NewContent(lesson, room)
    ensures lesson.lessonType == Deadline ==>
              c.DeadlineContent? && c.classroom.None? && c.(classroom := Some(room.id)) == NewContent(lesson, room)
  {
    var created := NewContent(lesson, room);
    if created.DeadlineContent? then created.(classroom := None) else created
  }

  /** The records deleted with a lesson of type `t`: those of that lesson and
      that type; none for resources. */
  function Without(contents: seq<Content>, lessonId: string, t: LessonType): (r: seq<Content>)
    ensures t == Resource ==> r == contents
    ensures t != Resource ==> forall i :: 0 <= i < |r| ==> r[i] in contents && !(r[i].lessonId == lessonId && KindOf(r[i]) == t)
    ensures t != Resource ==> forall i :: 0 <= i < |contents| && !(contents[i].lessonId == lessonId && KindOf(contents[i]) == t)
                                          ==> contents[i] in r
  {
    if t == Resource then contents
    else Filter(contents, (c: Content) => !(c.lessonId == lessonId && KindOf(c) == t))
  }

  // ---------------------------------------------------------------------------
  // Requests
  // ---------------------------------------------------------------------------

  datatype CreateLessonRequest = CreateLessonRequest(name: Option<string>, description: Option<string>,
                                                     sectionId: Option<string>, status: Option<LessonStatus>,
                                                     lessonType: Option<LessonType>)

  datatype UpdateLessonRequest = UpdateLessonRequest(id: string, name: Option<string>, description: Option<string>,
                                                     status: Option<LessonStatus>, index: Option<int>,
                                                     lessonType: Option<LessonType>)

  function SectionIndex(sections: seq<Section>, id: string): int {
    FirstWhere(sections, (s: Section) => s.id == id)
  }

  function ClassroomIndex(classrooms: seq<Classroom>, id: string): int {
    FirstWhere(classrooms, (c: Classroom) => c.id == id)
  }

  function LessonIndex(lessons: seq<Lesson>, id: string): int {
    FirstWhere(lessons, (l: Lesson) => l.id == id)
  }

  /** The checks createLesson makes before it saves anything, in order. */
  function CreateError(req: CreateLessonRequest, sections: seq<Section>): (e: Option<Error>)
    ensures e.None? <==> (req.name.Some? && req.sectionId.Some? && SectionIndex(sections, req.sectionId.value) >= 0
                         && req.lessonType.Some?)
  {
    if req.name.None? then Some(Rejected("Name is required"))
    else if req.sectionId.None? then Some(Rejected("SectionId is required"))
    else if SectionIndex(sections, req.sectionId.value) < 0 then Some(Rejected("SectionId is not found"))
    else if req.lessonType.None? then Some(Rejected("Type is required"))
    else None
  }

  /** The fields an update request sets; the others keep their values. */
  function Patched(lesson: Lesson, req: UpdateLessonRequest): (r: Lesson)
    ensures r.id == lesson.id && r.sectionId == lesson.sectionId && r.lessonType == lesson.lessonType
    ensures r.name == req.name.GetOr(lesson.name) && r.index == req.index.GetOr(lesson.index)
    ensures r.status == req.status.GetOr(lesson.status)
    ensures r.description == (if req.description.Some? then req.description else lesson.description)
  {
    lesson.(name := req.name.GetOr(lesson.name),
            description := if req.description.Some? then req.description else lesson.description,
            status := req.status.GetOr(lesson.status),
            index := req.index.GetOr(lesson.index))
  }

  // ---------------------------------------------------------------------------
  // The section listing
  // ---------------------------------------------------------------------------

  const Teacher := "TEACHER"

  /** Teachers see public and private lessons, everybody else public ones. */
  predicate Visible(role: string, status: LessonStatus) {
    status == Public || role == Teacher
  }

  predicate SortedByIndex(xs: seq<Lesson>) {
    forall i, j :: 0 <= i < j < |xs| ==> xs[i].index <= xs[j].index
  }

  function Insert(l: Lesson, xs: seq<Lesson>): (r: seq<Lesson>)
    ensures multiset(r) == multiset(xs) + multiset{l}
  {
    if |xs| == 0 then [l]
    else if l.index <= xs[0].index then [l] + xs
    else
      assert xs == [xs[0]] + xs[1..];
      [xs[0]] + Insert(l, xs[1..])
  }

  lemma {:induction false} InsertBounded(l: Lesson, xs: seq<Lesson>, v: int)
    requires l.index >= v && forall i :: 0 <= i < |xs| ==> xs[i].index >= v
    ensures forall i :: 0 <= i < |Insert(l, xs)| ==> Insert(l, xs)[i].index >= v
  {
    if |xs| > 0 && l.index > xs[0].index {
      InsertBounded(l, xs[1..], v);
    }
  }

  lemma {:induction false} InsertSorted(l: Lesson, xs: seq<Lesson>)
    requires SortedByIndex(xs)
    ensures SortedByIndex(Insert(l, xs))
  {
    if |xs| > 0 && l.index > xs[0].index {
      InsertSorted(l, xs[1..]);
      InsertBounded(l, xs[1..], xs[0].index);
    }
  }

  /** The lessons ordered by ascending index. */
  function SortByIndex(xs: seq<Lesson>): (r: seq<Lesson>)
    ensures multiset(r) == multiset(xs)
  {
    if |xs| == 0 then []
    else
      assert xs == xs[..|xs| - 1] + [xs[|xs| - 1]];
      Insert(xs[|xs| - 1], SortByIndex(xs[..|xs| - 1]))
  }

  lemma {:induction false} SortSorted(xs: seq<Lesson>)
    ensures SortedByIndex(SortByIndex(xs))
  {
    if |xs| > 0 {
      SortSorted(xs[..|xs| - 1]);
      InsertSorted(xs[|xs| - 1], SortByIndex(xs[..|xs| - 1]));
    }
  }

  /** The lessons of a section the role may see, ordered by index. */
  function VisibleLessons(lessons: seq<Lesson>, sectionId: string, role: string): seq<Lesson> {
    SortByIndex(Filter(lessons, (l: Lesson) => l.sectionId == sectionId && Visible(role, l.status)))
  }

  /** The listing holds exactly the section's lessons the role may see, in
      ascending index order: every lesson for a teacher, the public ones for
      anybody else. */
  lemma ListingShowsVisibleLessons(lessons: seq<Lesson>, sectionId: string, role: string, l: Lesson)
    requires l in lessons
    ensures SortedByIndex(VisibleLessons(lessons, sectionId, role))
    ensures l in VisibleLessons(lessons, sectionId, role)
            <==> l.sectionId == sectionId && (l.status == Public || role == Teacher)
  {
    var p := (l: Lesson) => l.sectionId == sectionId && Visible(role, l.status);
    var filtered := Filter(lessons, p);
    SortSorted(filtered);
    assert l in VisibleLessons(lessons, sectionId, role) <==> l in multiset(filtered);
    if p(l) {
      var i :| 0 <= i < |lessons| && lessons[i] == l;
      assert l in filtered;
    }
    if l in filtered {
      var i :| 0 <= i < |filtered| && filtered[i] == l;
    }
  }

  /** The lesson a section holds at an index, as the single-result lookup finds it. */
  function LessonAt(lessons: seq<Lesson>, sectionId: string, index: int): Option<Lesson> {
    var k := FirstWhere(lessons, (l: Lesson) => l.sectionId == sectionId && l.index == index);
    if k < 0 then None else Some(lessons[k])
  }

  /** Sequential access: the first lesson and every lesson for a teacher are
      open; any other lesson is open when the lesson just before it, by
      index, exists and the user completed it. */
  predicate CanAccess(lessons: seq<Lesson>, completions: set<Completion>, sectionId: string, classroomId: string,
                      role: string, userId: string, lesson: Lesson)
  {
    if lesson.index == 0 || role == Teacher then true
    else
      match LessonAt(lessons, sectionId, lesson.index - 1)
      case None => false
      case Some(previous) => Completion(userId, classroomId, previous.id) in completions
  }

  /** A student opens a later lesson only after completing a lesson of the
      section with the index just before it, and always when that lesson is
      the only one at that index and is completed. */
  lemma AccessFollowsCompletion(lessons: seq<Lesson>, completions: set<Completion>, sectionId: string,
                                classroomId: string, role: string, userId: string, lesson: Lesson)
    requires role != Teacher && lesson.index != 0
    ensures CanAccess(lessons, completions, sectionId, classroomId, role, userId, lesson) ==>
              exists j :: InSection(lessons, sectionId, j) && lessons[j].index == lesson.index - 1
                          && Completion(userId, classroomId, lessons[j].id) in completions
    ensures (exists j :: InSection(lessons, sectionId, j) && lessons[j].index == lesson.index - 1
                         && Completion(userId, classroomId, lessons[j].id) in completions
                         && forall k :: InSection(lessons, sectionId, k) && lessons[k].index == lesson.index - 1 ==> k == j)
            ==> CanAccess(lessons, completions, sectionId, classroomId, role, userId, lesson)
  {
  }

  datatype LessonView = LessonView(id: string, lessonType: LessonType, canAccess: bool, isComplete: bool)

  function ViewOfLesson(lessons: seq<Lesson>, completions: set<Completion>, sectionId: string, classroomId: string,
                        role: string, userId: string, lesson: Lesson): LessonView
  {
    LessonView(lesson.id, lesson.lessonType, CanAccess(lessons, completions, sectionId, classroomId, role, userId, lesson),
               Completion(userId, classroomId, lesson.id) in completions)
  }

  // ---------------------------------------------------------------------------
  // The service
  // ---------------------------------------------------------------------------

  class LessonService {
    const sections: seq<Section>
    const completions: set<Completion>
    var lessons: seq<Lesson>
    var classrooms: seq<Classroom>
    var contents: seq<Content>

    constructor(sections: seq<Section>, completions: set<Completion>, lessons: seq<Lesson>,
                classrooms: seq<Classroom>, contents: seq<Content>)
      ensures this.sections == sections && this.completions == completions && this.lessons == lessons
      ensures this.classrooms == classrooms && this.contents == contents
    {
      this.sections := sections;
      this.completions := completions;
      this.lessons := lessons;
      this.classrooms := classrooms;
      this.contents := contents;
    }

    /** createLesson: validate, save the lesson at the next index, then count
        it in its classroom and create its content record. The lesson is
        saved before the classroom is looked up, so a missing classroom
        leaves the lesson behind. */
    method CreateLesson(req: CreateLessonRequest, newId: string) returns (error: Option<Error>)
      modifies this
      ensures CreateError(req, sections).Some? ==>
                error == CreateError(req, sections)
                && lessons == old(lessons) && classrooms == old(classrooms) && contents == old(contents)
      ensures CreateError(req, sections).None? ==>
                var section := sections[SectionIndex(sections, req.sectionId.value)];
                var lesson := Lesson(newId, section.id, req.name.value, req.description, req.status.GetOr(Public),
                                     NextIndex(old(lessons), section.id), req.lessonType.value);
                var k := ClassroomIndex(old(classrooms), section.classRoomId);
                lessons == old(lessons) + [lesson]
                && (k < 0 ==> error == Some(Rejected(NoValuePresent))
                              && classrooms == old(classrooms) && contents == old(contents))
                && (k >= 0 ==> error.None?
                               && classrooms == old(classrooms)[k := old(classrooms)[k].(counters :=
                                                  Added(old(classrooms)[k].counters, lesson.lessonType))]
                               && contents == old(contents) + [NewContent(lesson, old(classrooms)[k])])
    {
      error := CreateError(req, sections);
      if error.Some? {
        return;
      }
      var section := sections[SectionIndex(sections, req.sectionId.value)];
      var status := if req.status.None? then Public else req.status.value;
      var lesson := Lesson(newId, section.id, req.name.value, req.description, status,
                           NextIndex(lessons, section.id), req.lessonType.value);
      lessons := lessons + [lesson];
      var k := ClassroomIndex(classrooms, section.classRoomId);
      if k < 0 {
        return Some(Rejected(NoValuePresent));
      }
      var room := classrooms[k];
      contents := contents + [NewContent(lesson, room)];
      var counters := Added(room.counters, lesson.lessonType);
      classrooms := classrooms[k := room.(counters := counters)];
    }

    /** updateLesson: set the fields the request carries and, when it names
        a type, delete the old type's record and count (none for a
        resource), then create the new type's record and count; a deadline
        created this way has no classroom. */
    method UpdateLesson(req: UpdateLessonRequest) returns (error: Option<Error>)
      modifies this
      ensures LessonIndex(old(lessons), req.id) < 0 ==>
                error == Some(Rejected("Lesson not found"))
                && lessons == old(lessons) && classrooms == old(classrooms) && contents == old(contents)
      ensures LessonIndex(old(lessons), req.id) >= 0 ==>
                var i := LessonIndex(old(lessons), req.id);
                var lesson := old(lessons)[i];
                var s := SectionIndex(sections, lesson.sectionId);
                (s < 0 || ClassroomIndex(old(classrooms), sections[s].classRoomId) < 0) ==>
                  error == Some(Rejected(NoValuePresent))
                  && lessons == old(lessons) && classrooms == old(classrooms) && contents == old(contents)
      ensures LessonIndex(old(lessons), req.id) >= 0 ==>
                var i := LessonIndex(old(lessons), req.id);
                var lesson := old(lessons)[i];
                var s := SectionIndex(sections, lesson.sectionId);
                s >= 0 && ClassroomIndex(old(classrooms), sections[s].classRoomId) >= 0 ==>
                  var k := ClassroomIndex(old(classrooms), sections[s].classRoomId);
                  var room := old(classrooms)[k];
                  var patched := Patched(lesson, req);
                  error.None?
                  && (req.lessonType.None? ==>
                        lessons == old(lessons)[i := patched] && classrooms == old(classrooms)
                        && contents == old(contents))
                  && (req.lessonType.Some? ==>
                        var retyped := patched.(lessonType := req.lessonType.value);
                        lessons == old(lessons)[i := retyped]
                        && classrooms == old(classrooms)[k := room.(counters :=
                                           Added(Removed(room.counters, lesson.lessonType), retyped.lessonType))]
                        && contents == Without(old(contents), lesson.id, lesson.lessonType) + [RetypedContent(retyped, room)])
    {
      var i := LessonIndex(lessons, req.id);
      if i < 0 {
        return Some(Rejected("Lesson not found"));
      }
      var lesson := Patched(lessons[i], req);
      var s := SectionIndex(sections, lesson.sectionId);
      if s < 0 {
        return Some(Rejected(NoValuePresent));
      }
      var k := ClassroomIndex(classrooms, sections[s].classRoomId);
      if k < 0 {
        return Some(Rejected(NoValuePresent));
      }
      var room := classrooms[k];
      var counters := room.counters;
      if req.lessonType.Some? {
        contents := Without(contents, lesson.id, lesson.lessonType);
        counters := Removed(counters, lesson.lessonType);
        lesson := lesson.(lessonType := req.lessonType.value);
        contents := contents + [RetypedContent(lesson, room)];
        counters := Added(counters, lesson.lessonType);
      }
      lessons := lessons[i := lesson];
      classrooms := classrooms[k := room.(counters := counters)];
      error := None;
    }

    /** deleteLesson: delete the lesson's record of its type and count, then
        the lesson itself. */
    method DeleteLesson(id: string) returns (error: Option<Error>)
      modifies this
      ensures LessonIndex(old(lessons), id) < 0 ==>
                error == Some(Rejected("Lesson not found"))
                && lessons == old(lessons) && classrooms == old(classrooms) && contents == old(contents)
      ensures LessonIndex(old(lessons), id) >= 0 ==>
                var lesson := old(lessons)[LessonIndex(old(lessons), id)];
                var s := SectionIndex(sections, lesson.sectionId);
                (s < 0 || ClassroomIndex(old(classrooms), sections[s].classRoomId) < 0) ==>
                  error == Some(Rejected(NoValuePresent))
                  && lessons == old(lessons) && classrooms == old(classrooms) && contents == old(contents)
      ensures LessonIndex(old(lessons), id) >= 0 ==>
                var lesson := old(lessons)[LessonIndex(old(lessons), id)];
                var s := SectionIndex(sections, lesson.sectionId);
                s >= 0 && ClassroomIndex(old(classrooms), sections[s].classRoomId) >= 0 ==>
                  var k := ClassroomIndex(old(classrooms), sections[s].classRoomId);
                  var room := old(classrooms)[k];
                  error.None?
                  && lessons == Filter(old(lessons), (l: Lesson) => l.id != id)
                  && classrooms == old(classrooms)[k := room.(counters := Removed(room.counters, lesson.lessonType))]
                  && contents == Without(old(contents), lesson.id, lesson.lessonType)
    {
      var i := LessonIndex(lessons, id);
      if i < 0 {
        return Some(Rejected("Lesson not found"));
      }
      var lesson := lessons[i];
      var s := SectionIndex(sections, lesson.sectionId);
      if s < 0 {
        return Some(Rejected(NoValuePresent));
      }
      var k := ClassroomIndex(classrooms, sections[s].classRoomId);
      if k < 0 {
        return Some(Rejected(NoValuePresent));
      }
      var room := classrooms[k];
      contents := Without(contents, lesson.id, lesson.lessonType);
      classrooms := classrooms[k := room.(counters := Removed(room.counters, lesson.lessonType))];
      lessons := Filter(lessons, (l: Lesson) => l.id != id);
      error := None;
    }

    /** The view of each lesson of the listing, in order, for a section in
        the given classroom. */
    method ViewLessons(visible: seq<Lesson>, sectionId: string, classroomId: string, role: string, userId: string)
      returns (views: seq<LessonView>)
      ensures |views| == |visible|
      ensures forall i :: 0 <= i < |visible| ==>
                views[i] == ViewOfLesson(lessons, completions, sectionId, classroomId, role, userId, visible[i])
    {
      views := [];
      for i := 0 to |visible|
        invariant |views| == i
        invariant forall j :: 0 <= j < i ==>
                    views[j] == ViewOfLesson(lessons, completions, sectionId, classroomId, role, userId, visible[j])
      {
        var lesson := visible[i];
        var canAccess: bool;
        if lesson.index == 0 || role == Teacher {
          canAccess := true;
        } else {
          var previous := LessonAt(lessons, sectionId, lesson.index - 1);
          canAccess := previous.Some? && Completion(userId, classroomId, previous.value.id) in completions;
        }
        views := views + [LessonView(lesson.id, lesson.lessonType, canAccess,
                                     Completion(userId, classroomId, lesson.id) in completions)];
      }
    }

    /** getLessonBySectionId: the visible lessons of the section in index
        order, each with whether the user may open it and has completed it.
        Both flags need the section's classroom, so a missing section fails
        the listing as soon as it has a lesson. */
    method GetLessonBySectionId(sectionId: string, role: string, userId: string) returns (r: Outcome<seq<LessonView>>)
      ensures |VisibleLessons(lessons, sectionId, role)| == 0 ==> r == Ok([])
      ensures |VisibleLessons(lessons, sectionId, role)| > 0 && SectionIndex(sections, sectionId) < 0 ==>
                r == Fail(Rejected(NoValuePresent))
      ensures SectionIndex(sections, sectionId) >= 0 ==>
                var visible := VisibleLessons(lessons, sectionId, role);
                var classroomId := sections[SectionIndex(sections, sectionId)].classRoomId;
                r.Ok? && |r.value| == |visible|
                && forall i :: 0 <= i < |visible| ==>
                     r.value[i] == ViewOfLesson(lessons, completions, sectionId, classroomId, role, userId, visible[i])
    {
      var visible := VisibleLessons(lessons, sectionId, role);
      if |visible| == 0 {
        return Ok([]);
      }
      var s := SectionIndex(sections, sectionId);
      if s < 0 {
        return Fail(Rejected(NoValuePresent));
      }
      var views := ViewLessons(visible, sectionId, sections[s].classRoomId, role, userId);
      r := Ok(views);
    }
  }
}
