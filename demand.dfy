/** The demand indexes derived from the roster of students owing make-up exams:
    the subjects each course must schedule (`disc_by_course`), each student's
    own subjects (`disc_by_student`) and, per subject, the courses that need it
    (`courses_by_disc`). The script builds them by loops that update
    dictionaries in place; each loop is a method here, proved against a
    function that states what the dictionary holds when the loop is done. */
module Demand {
  import opened Entities

  /** `recup_raw`: course -> student -> subjects the student must retake. The
      JSON lists become sets at once (`set(dl)`), so repeated entries vanish. */
  type Roster = map<Course, map<Student, set<Subject>>>

  /** Every roster course that lists a student is a course of the timetable;
      otherwise `disc_by_course[c]` raises at main.py:29. A roster course
      without students is never looked up. */
  predicate Enrolled(courses: seq<Course>, roster: Roster) {
    forall c :: c in roster && roster[c] != map[] ==> c in courses
  }

  /** The subjects some student of course `c` must retake. */
  function Required(roster: Roster, c: Course): set<Subject> {
    if c in roster then (set a, d | a in roster[c] && d in roster[c][a] :: d) else {}
  }

  /** `disc_by_course` once built: one entry per course of the timetable. */
  function RequiredByCourse(courses: seq<Course>, roster: Roster): map<Course, set<Subject>> {
    map c | c in courses :: Required(roster, c)
  }

  /** `disc_by_student` once built: one entry per (course, student) of the roster. */
  function SubjectsByStudent(roster: Roster): map<StudentKey, set<Subject>> {
    map c, a | c in roster && a in roster[c] :: (c, a) := roster[c][a]
  }

  /** The subjects gathered for course `c` once the students outside `todo`
      have been visited. */
  function RequiredExcept(roster: Roster, c: Course, todo: set<Student>): set<Subject>
    requires c in roster
  {
    set a, d | a in roster[c] && a !in todo && d in roster[c][a] :: d
  }

  lemma RequiredExceptStep(roster: Roster, c: Course, todo: set<Student>, a: Student)
    requires c in roster && a in todo && a in roster[c]
    ensures RequiredExcept(roster, c, todo - {a}) == RequiredExcept(roster, c, todo) + roster[c][a]
  {
  }

  lemma RequiredExceptAll(roster: Roster, c: Course)
    requires c in roster
    ensures RequiredExcept(roster, c, roster[c].Keys) == {}
    ensures RequiredExcept(roster, c, {}) == Required(roster, c)
  {
  }

  /** main.py:26-29: one pass over the roster, adding each student's subjects
      to the course's set and recording the student's own set. */
  method BuildDemand(courses: seq<Course>, roster: Roster)
    returns (discByCourse: map<Course, set<Subject>>, discByStudent: map<StudentKey, set<Subject>>)
    requires Enrolled(courses, roster)
    ensures discByCourse == RequiredByCourse(courses, roster)
    ensures discByStudent == SubjectsByStudent(roster)
  {
    discByCourse := map c | c in courses :: {};
    discByStudent := map[];
    var todo := roster.Keys;
    while todo != {}
      invariant todo <= roster.Keys
      invariant discByCourse.Keys == Values(courses)
      invariant forall c :: c in discByCourse ==>
                  discByCourse[c] == if c !in todo then Required(roster, c) else {}
      invariant forall k :: k in discByStudent <==> k.0 in roster && k.0 !in todo && k.1 in roster[k.0]
      invariant forall k :: k in discByStudent ==> discByStudent[k] == roster[k.0][k.1]
      decreases todo
    {
      var c :| c in todo;
      var students := roster[c].Keys;
      RequiredExceptAll(roster, c);
      assert students != {} ==> roster[c] != map[];
      while students != {}
        invariant students <= roster[c].Keys
        invariant discByCourse.Keys == Values(courses)
        invariant students != {} ==> c in discByCourse
        invariant c in discByCourse ==> discByCourse[c] == RequiredExcept(roster, c, students)
        invariant forall c' :: c' in discByCourse && c' != c ==>
                    discByCourse[c'] == if c' !in todo then Required(roster, c') else {}
        invariant forall k :: k in discByStudent <==>
                    k.0 in roster && k.1 in roster[k.0] && (k.0 !in todo || (k.0 == c && k.1 !in students))
        invariant forall k :: k in discByStudent ==> discByStudent[k] == roster[k.0][k.1]
        decreases students
      {
        var a :| a in students;
        var s := roster[c][a];
        RequiredExceptStep(roster, c, students, a);
        discByCourse := discByCourse[c := discByCourse[c] + s];
        discByStudent := discByStudent[(c, a) := s];
        students := students - {a};
      }
      todo := todo - {c};
    }
    StudentMapEqual(roster, discByStudent);
    CourseMapEqual(courses, roster, discByCourse);
  }

  lemma StudentMapEqual(roster: Roster, m: map<StudentKey, set<Subject>>)
    requires forall k :: k in m <==> k.0 in roster && k.1 in roster[k.0]
    requires forall k :: k in m ==> m[k] == roster[k.0][k.1]
    ensures m == SubjectsByStudent(roster)
  {
    var byStudent := SubjectsByStudent(roster);
    assert forall k :: k in byStudent <==> k.0 in roster && k.1 in roster[k.0];
    assert m.Keys == byStudent.Keys;
  }

  lemma CourseMapEqual(courses: seq<Course>, roster: Roster, m: map<Course, set<Subject>>)
    requires m.Keys == Values(courses)
    requires forall c :: c in m ==> m[c] == Required(roster, c)
    ensures m == RequiredByCourse(courses, roster)
  {
  }

  /** Each student's subjects are among the subjects of the student's course,
      and a course needs exactly the subjects some of its students owe. */
  lemma StudentsWithinCourse(courses: seq<Course>, roster: Roster, k: StudentKey)
    requires Enrolled(courses, roster)
    requires k in SubjectsByStudent(roster)
    ensures k.0 in RequiredByCourse(courses, roster)
    ensures SubjectsByStudent(roster)[k] <= RequiredByCourse(courses, roster)[k.0]
  {
  }

  /** `disc_by_course[c]` is the union of `disc_by_student[(c, a)]` over the
      students `a` of course `c`. */
  lemma RequiredIsUnionOfStudents(courses: seq<Course>, roster: Roster, c: Course, d: Subject)
    requires c in courses
    ensures d in RequiredByCourse(courses, roster)[c] <==>
              exists a :: (c, a) in SubjectsByStudent(roster) && d in SubjectsByStudent(roster)[(c, a)]
  {
    var byStudent := SubjectsByStudent(roster);
    if d in RequiredByCourse(courses, roster)[c] {
      var a :| a in roster[c] && d in roster[c][a];
      assert (c, a) in byStudent;
    }
  }

  // ---------------------------------------------------------------- inverse index

  /** The courses of `courses` that need subject `d`, in `courses` order. */
  function CoursesNeeding(courses: seq<Course>, discByCourse: map<Course, set<Subject>>, d: Subject): seq<Course>
    requires forall c :: c in courses ==> c in discByCourse
  {
    if courses == [] then []
    else
      var last := courses[|courses| - 1];
      CoursesNeeding(courses[..|courses| - 1], discByCourse, d) + (if d in discByCourse[last] then [last] else [])
  }

  /** The subjects some course of `courses` needs. */
  function SubjectsNeeded(courses: seq<Course>, discByCourse: map<Course, set<Subject>>): set<Subject>
    requires forall c :: c in courses ==> c in discByCourse
  {
    set c, d | c in courses && d in discByCourse[c] :: d
  }

  /** `courses_by_disc` once built. */
  function CoursesBySubject(courses: seq<Course>, discByCourse: map<Course, set<Subject>>): map<Subject, seq<Course>>
    requires forall c :: c in courses ==> c in discByCourse
  {
    map d | d in SubjectsNeeded(courses, discByCourse) :: CoursesNeeding(courses, discByCourse, d)
  }

  lemma CoursesNeedingStep(courses: seq<Course>, discByCourse: map<Course, set<Subject>>, i: nat)
    requires i < |courses| && forall c :: c in courses ==> c in discByCourse
    ensures forall d :: CoursesNeeding(courses[..i + 1], discByCourse, d) ==
              CoursesNeeding(courses[..i], discByCourse, d) + (if d in discByCourse[courses[i]] then [courses[i]] else [])
    ensures SubjectsNeeded(courses[..i + 1], discByCourse) == SubjectsNeeded(courses[..i], discByCourse) + discByCourse[courses[i]]
  {
    assert courses[..i + 1][..i] == courses[..i];
    assert courses[..i + 1] == courses[..i] + [courses[i]];
  }

  /** main.py:31-33: visit the courses in order and append each course to the
      list of every subject it needs (`setdefault(d, []).append(c)`). */
  method IndexBySubject(courses: seq<Course>, discByCourse: map<Course, set<Subject>>)
    returns (coursesByDisc: map<Subject, seq<Course>>)
    requires forall c :: c in courses ==> c in discByCourse
    ensures coursesByDisc == CoursesBySubject(courses, discByCourse)
  {
    coursesByDisc := map[];
    for i := 0 to |courses|
      invariant forall d :: d in coursesByDisc <==> d in SubjectsNeeded(courses[..i], discByCourse)
      invariant forall d :: d in coursesByDisc ==> coursesByDisc[d] == CoursesNeeding(courses[..i], discByCourse, d)
    {
      var c := courses[i];
      var pending := discByCourse[c];
      ghost var done: set<Subject> := {};
      ghost var prefix := courses[..i];
      while pending != {}
        invariant pending <= discByCourse[c] && done == discByCourse[c] - pending
        invariant forall d :: d in coursesByDisc <==> d in SubjectsNeeded(prefix, discByCourse) || d in done
        invariant forall d :: d in coursesByDisc ==>
                    coursesByDisc[d] == CoursesNeeding(prefix, discByCourse, d) + (if d in done then [c] else [])
        decreases pending
      {
        var d :| d in pending;
        ghost var was := coursesByDisc;
        if d in coursesByDisc {
          coursesByDisc := coursesByDisc[d := coursesByDisc[d] + [c]];
        } else {
          NotNeededMeansNone(prefix, discByCourse, d);
          coursesByDisc := coursesByDisc[d := [c]];
        }
        assert coursesByDisc[d] == CoursesNeeding(prefix, discByCourse, d) + [c];
        pending := pending - {d};
        done := done + {d};
      }
      CoursesNeedingStep(courses, discByCourse, i);
    }
    assert courses[..|courses|] == courses;
    IndexEqual(courses, discByCourse, coursesByDisc);
  }

  lemma IndexEqual(courses: seq<Course>, discByCourse: map<Course, set<Subject>>, m: map<Subject, seq<Course>>)
    requires forall c :: c in courses ==> c in discByCourse
    requires forall d :: d in m <==> d in SubjectsNeeded(courses, discByCourse)
    requires forall d :: d in m ==> m[d] == CoursesNeeding(courses, discByCourse, d)
    ensures m == CoursesBySubject(courses, discByCourse)
  {
  }

  lemma NotNeededMeansNone(courses: seq<Course>, discByCourse: map<Course, set<Subject>>, d: Subject)
    requires forall c :: c in courses ==> c in discByCourse
    requires d !in SubjectsNeeded(courses, discByCourse)
    ensures CoursesNeeding(courses, discByCourse, d) == []
  {
    CoursesNeedingFacts(courses, discByCourse);
  }

  lemma {:induction false} CoursesNeedingFacts(courses: seq<Course>, discByCourse: map<Course, set<Subject>>)
    requires forall c :: c in courses ==> c in discByCourse
    ensures forall d, c :: c in CoursesNeeding(courses, discByCourse, d) <==> c in courses && d in discByCourse[c]
    ensures forall d :: CoursesNeeding(courses, discByCourse, d) == [] <==> d !in SubjectsNeeded(courses, discByCourse)
    ensures NoDup(courses) ==> forall d :: NoDup(CoursesNeeding(courses, discByCourse, d))
  {
    if courses != [] {
      var init := courses[..|courses| - 1];
      assert courses == init + [courses[|courses| - 1]];
      CoursesNeedingFacts(init, discByCourse);
      forall d ensures CoursesNeeding(courses, discByCourse, d) == [] <==> d !in SubjectsNeeded(courses, discByCourse) {
        var cs := CoursesNeeding(courses, discByCourse, d);
        if cs == [] {
          assert forall c :: c in courses ==> d !in discByCourse[c];
        } else {
          assert cs[0] in cs;
        }
      }
    }
  }

  /** `courses_by_disc[d]` lists exactly the courses whose subjects include
      `d`, each once, and lists only subjects some course needs. */
  lemma CoursesBySubjectIsInverse(courses: seq<Course>, discByCourse: map<Course, set<Subject>>, d: Subject, c: Course)
    requires forall c :: c in courses ==> c in discByCourse
    requires NoDup(courses)
    ensures d in CoursesBySubject(courses, discByCourse) <==> exists c :: c in courses && d in discByCourse[c]
    ensures d in CoursesBySubject(courses, discByCourse) ==>
              NoDup(CoursesBySubject(courses, discByCourse)[d]) &&
              (c in CoursesBySubject(courses, discByCourse)[d] <==> c in courses && d in discByCourse[c])
  {
    CoursesNeedingFacts(courses, discByCourse);
  }
}
