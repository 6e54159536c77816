/** The university register (`University`): students and courses kept in
    fixed-size arrays, each given the next free ID, with the ID standing
    for the array position; a student registered to a course is recorded
    on both sides; the rector's name. */
module Universities {
  import opened Util

  const FIRST_ID_STUDENT := 10000
  const FIRST_COURSE_CODE := 10
  const MAX_STUDENTS := 1000
  const MAX_COURSES := 50

  /** The runtime exceptions the register ends in: an ID or code whose
      position is outside its array, or a position not yet filled. */
  datatype Failure = IndexOutOfBounds | NullDereference

  datatype Outcome<T> = Done(value: T) | Thrown(failure: Failure)

  /** A student, with the codes of the courses they attend. */
  datatype Student = Student(id: int, first: string, last: string, attended: set<int>)

  /** A course, with the IDs of the students registered to it. */
  datatype Course = Course(code: int, title: string, teacher: string, participants: set<int>)

  /** The students of `ss` registered to a course with `participants`, in
      the order of `ss`. */
  function Attendees(ss: seq<Student>, participants: set<int>): (r: seq<Student>)
    ensures |r| <= |ss|
  {
    if ss == [] then []
    else
      var init := Attendees(ss[..|ss| - 1], participants);
      var s := ss[|ss| - 1];
      assert ss == ss[..|ss| - 1] + [s];
      if s.id in participants then init + [s] else init
  }

  /** The courses of `cs` a student attending `attended` follows, in the
      order of `cs`. */
  function Plan(cs: seq<Course>, attended: set<int>): (r: seq<Course>)
    ensures |r| <= |cs|
  {
    if cs == [] then []
    else
      var init := Plan(cs[..|cs| - 1], attended);
      var c := cs[|cs| - 1];
      assert cs == cs[..|cs| - 1] + [c];
      if c.code in attended then init + [c] else init
  }

  /** A student is listed exactly when they are among `ss` and registered. */
  lemma {:induction false} AttendeesMember(ss: seq<Student>, participants: set<int>, s: Student)
    ensures s in Attendees(ss, participants) <==> s in ss && s.id in participants
    decreases |ss|
  {
    if ss != [] {
      var init := ss[..|ss| - 1];
      AttendeesMember(init, participants, s);
      assert ss == init + [ss[|ss| - 1]];
    }
  }

  /** A course is listed exactly when it is among `cs` and attended. */
  lemma {:induction false} PlanMember(cs: seq<Course>, attended: set<int>, c: Course)
    ensures c in Plan(cs, attended) <==> c in cs && c.code in attended
    decreases |cs|
  {
    if cs != [] {
      var init := cs[..|cs| - 1];
      PlanMember(init, attended, c);
      assert cs == init + [cs[|cs| - 1]];
    }
  }

  /** The contents of slots that are all filled. */
  function Filled<T>(slots: seq<Option<T>>): (r: seq<T>)
    requires forall i :: 0 <= i < |slots| ==> slots[i].Some?
    ensures |r| == |slots| && forall i :: 0 <= i < |slots| ==> slots[i] == Some(r[i])
  {
    seq(|slots|, i requires 0 <= i < |slots| && slots[i].Some? => slots[i].value)
  }

  /** One line per item: its text and a newline. */
  function Lines<T>(xs: seq<T>, describe: T -> string): string
  {
    if xs == [] then "" else Lines(xs[..|xs| - 1], describe) + describe(xs[|xs| - 1]) + "\n"
  }

  lemma LinesSnoc<T>(xs: seq<T>, x: T, describe: T -> string)
    ensures Lines(xs + [x], describe) == Lines(xs, describe) + describe(x) + "\n"
  {
    assert (xs + [x])[..|xs|] == xs;
  }

  predicate StudentIdsAscending(ss: seq<Student>) {
    forall i, j :: 0 <= i < j < |ss| ==> ss[i].id < ss[j].id
  }

  predicate CourseCodesAscending(cs: seq<Course>) {
    forall i, j :: 0 <= i < j < |cs| ==> cs[i].code < cs[j].code
  }

  /** Attendees are listed by increasing ID when the students are. */
  lemma {:induction false} AttendeesAscending(ss: seq<Student>, participants: set<int>)
    requires StudentIdsAscending(ss)
    ensures StudentIdsAscending(Attendees(ss, participants))
    decreases |ss|
  {
    if ss != [] {
      var init := ss[..|ss| - 1];
      AttendeesAscending(init, participants);
      var r := Attendees(init, participants);
      forall k | 0 <= k < |r|
        ensures r[k].id < ss[|ss| - 1].id
      {
        AttendeesMember(init, participants, r[k]);
      }
    }
  }

  /** A study plan lists courses by increasing code when the courses are. */
  lemma {:induction false} PlanAscending(cs: seq<Course>, attended: set<int>)
    requires CourseCodesAscending(cs)
    ensures CourseCodesAscending(Plan(cs, attended))
    decreases |cs|
  {
    if cs != [] {
      var init := cs[..|cs| - 1];
      PlanAscending(init, attended);
      var r := Plan(init, attended);
      forall k | 0 <= k < |r|
        ensures r[k].code < cs[|cs| - 1].code
      {
        PlanMember(init, attended, r[k]);
      }
    }
  }

  class University {
    const universityName: string
    var rectorName: string
    var rectorSurname: string
    var enrolledStudents: int
    var activeCourses: int
    /** `students[i]` holds the student with ID `10000 + i`; `None` is a
        `null` slot. */
    const students: array<Option<Student>>
    /** `courses[i]` holds the course with code `10 + i`. */
    const courses: array<Option<Course>>

    /** The first `enrolledStudents` slots, and only those, are filled, each
        with the student whose ID is its position plus 10000; likewise for
        courses, with codes from 10. */
    ghost predicate Valid()
      reads this, students, courses
    {
      students.Length == MAX_STUDENTS && courses.Length == MAX_COURSES &&
      0 <= enrolledStudents <= MAX_STUDENTS && 0 <= activeCourses <= MAX_COURSES &&
      (forall i :: 0 <= i < MAX_STUDENTS ==> (students[i].Some? <==> i < enrolledStudents)) &&
      (forall i :: 0 <= i < enrolledStudents ==> students[i].value.id == FIRST_ID_STUDENT + i) &&
      (forall i :: 0 <= i < MAX_COURSES ==> (courses[i].Some? <==> i < activeCourses)) &&
      (forall i :: 0 <= i < activeCourses ==> courses[i].value.code == FIRST_COURSE_CODE + i)
    }

    /** The enrolled students, by ID. */
    ghost function Enrolled(): (r: seq<Student>)
      requires Valid()
      reads this, students, courses
      ensures |r| == enrolledStudents
    {
      Filled(students[..enrolledStudents])
    }

    /** The active courses, by code. */
    ghost function Active(): (r: seq<Course>)
      requires Valid()
      reads this, students, courses
      ensures |r| == activeCourses
    {
      Filled(courses[..activeCourses])
    }

    constructor (name: string)
      ensures Valid()
      ensures universityName == name && GetRector() == " "
      ensures enrolledStudents == 0 && activeCourses == 0
    {
      universityName := name;
      rectorName, rectorSurname := "", "";
      enrolledStudents, activeCourses := 0, 0;
      students := new Option<Student>[MAX_STUDENTS](_ => None);
      courses := new Option<Course>[MAX_COURSES](_ => None);
    }

    method SetRector(first: string, last: string)
      modifies this
      ensures GetRector() == first + " " + last
      ensures enrolledStudents == old(enrolledStudents) && activeCourses == old(activeCourses)
    {
      rectorName, rectorSurname := first, last;
    }

    /** `getRector`: first name, a space, last name. */
    function GetRector(): string
      reads this
    {
      rectorName + " " + rectorSurname
    }

    /** `enroll`: the student gets the ID `10000` plus the number enrolled so
        far and the next slot; with all 1000 slots taken the array store
        throws and nothing changes. */
    method Enroll(first: string, last: string) returns (r: Outcome<int>)
      requires Valid()
      modifies this, students
      ensures Valid()
      ensures r == if old(enrolledStudents) < MAX_STUDENTS then Done(FIRST_ID_STUDENT + old(enrolledStudents))
        else Thrown(IndexOutOfBounds)
      ensures r.Done? ==>
        enrolledStudents == old(enrolledStudents) + 1 &&
        Enrolled() == old(Enrolled()) + [Student(r.value, first, last, {})]
      ensures r.Thrown? ==> enrolledStudents == old(enrolledStudents) && unchanged(students)
      ensures activeCourses == old(activeCourses) && GetRector() == old(GetRector())
    {
      var position := enrolledStudents;
      var newId := position + FIRST_ID_STUDENT;
      if position >= students.Length {
        return Thrown(IndexOutOfBounds);
      }
      students[position] := Some(Student(newId, first, last, {}));
      enrolledStudents := enrolledStudents + 1;
      r := Done(newId);
      assert Enrolled() == old(Enrolled()) + [Student(newId, first, last, {})];
    }

    /** `activate`: the course gets the code `10` plus the number active so
        far and the next slot; with all 50 slots taken the array store
        throws and nothing changes. */
    method Activate(title: string, teacher: string) returns (r: Outcome<int>)
      requires Valid()
      modifies this, courses
      ensures Valid()
      ensures r == if old(activeCourses) < MAX_COURSES then Done(FIRST_COURSE_CODE + old(activeCourses))
        else Thrown(IndexOutOfBounds)
      ensures r.Done? ==>
        activeCourses == old(activeCourses) + 1 &&
        Active() == old(Active()) + [Course(r.value, title, teacher, {})]
      ensures r.Thrown? ==> activeCourses == old(activeCourses) && unchanged(courses)
      ensures enrolledStudents == old(enrolledStudents) && GetRector() == old(GetRector())
    {
      var position := activeCourses;
      var newId := position + FIRST_COURSE_CODE;
      if position >= courses.Length {
        return Thrown(IndexOutOfBounds);
      }
      courses[position] := Some(Course(newId, title, teacher, {}));
      activeCourses := activeCourses + 1;
      r := Done(newId);
      assert Active() == old(Active()) + [Course(newId, title, teacher, {})];
    }

    /** `student(id)`: the text of the student at position `id - 10000`;
        `describe` is `Student.toString`. */
    function StudentInfo(id: int, describe: Student -> string): (r: Outcome<string>)
      requires Valid()
      reads this, students, courses
      ensures r.Done? <==> FIRST_ID_STUDENT <= id < FIRST_ID_STUDENT + enrolledStudents
      ensures r.Done? ==> Enrolled()[id - FIRST_ID_STUDENT].id == id && r.value == describe(Enrolled()[id - FIRST_ID_STUDENT])
      ensures r.Thrown? ==> r.failure == if 0 <= id - FIRST_ID_STUDENT < MAX_STUDENTS then NullDereference else IndexOutOfBounds
    {
      var recoverId := id - FIRST_ID_STUDENT;
      if recoverId < 0 || recoverId >= students.Length then Thrown(IndexOutOfBounds)
      else match students[recoverId]
        case None => Thrown(NullDereference)
        case Some(s) => Done(describe(s))
    }

    /** `course(code)`: the text of the course at position `code - 10`;
        `describe` is `Course.toString`. */
    function CourseInfo(code: int, describe: Course -> string): (r: Outcome<string>)
      requires Valid()
      reads this, students, courses
      ensures r.Done? <==> FIRST_COURSE_CODE <= code < FIRST_COURSE_CODE + activeCourses
      ensures r.Done? ==> Active()[code - FIRST_COURSE_CODE].code == code && r.value == describe(Active()[code - FIRST_COURSE_CODE])
      ensures r.Thrown? ==> r.failure == if 0 <= code - FIRST_COURSE_CODE < MAX_COURSES then NullDereference else IndexOutOfBounds
    {
      var recoverId := code - FIRST_COURSE_CODE;
      if recoverId < 0 || recoverId >= courses.Length then Thrown(IndexOutOfBounds)
      else match courses[recoverId]
        case None => Thrown(NullDereference)
        case Some(c) => Done(describe(c))
    }

    /** `register`: the course records the student, then the student
        records the course. A bad course throws first and changes nothing;
        a bad student throws after the course has recorded them. Neither
        side checks that the other exists. */
    method Register(studentId: int, courseCode: int) returns (r: Outcome<()>)
      requires Valid()
      modifies students, courses
      ensures Valid()
      ensures var posCourse, posStudent := courseCode - FIRST_COURSE_CODE, studentId - FIRST_ID_STUDENT;
        && (r == if !(0 <= posCourse < MAX_COURSES) then Thrown(IndexOutOfBounds)
            else if posCourse >= activeCourses then Thrown(NullDereference)
            else if !(0 <= posStudent < MAX_STUDENTS) then Thrown(IndexOutOfBounds)
            else if posStudent >= enrolledStudents then Thrown(NullDereference)
            else Done(()))
        && (if 0 <= posCourse < activeCourses then
              var c := old(Active())[posCourse];
              Active() == old(Active())[posCourse := c.(participants := c.participants + {studentId})]
            else Active() == old(Active()))
        && (if 0 <= posCourse < activeCourses && 0 <= posStudent < enrolledStudents then
              var s := old(Enrolled())[posStudent];
              Enrolled() == old(Enrolled())[posStudent := s.(attended := s.attended + {courseCode})]
            else Enrolled() == old(Enrolled()))
    {
      var posStudent := studentId - FIRST_ID_STUDENT;
      var posCourse := courseCode - FIRST_COURSE_CODE;
      if posCourse < 0 || posCourse >= courses.Length {
        return Thrown(IndexOutOfBounds);
      }
      if courses[posCourse].None? {
        return Thrown(NullDereference);
      }
      var c := courses[posCourse].value;
      courses[posCourse] := Some(c.(participants := c.participants + {studentId}));
      assert Active() == old(Active())[posCourse := c.(participants := c.participants + {studentId})];
      if posStudent < 0 || posStudent >= students.Length {
        return Thrown(IndexOutOfBounds);
      }
      if students[posStudent].None? {
        return Thrown(NullDereference);
      }
      var s := students[posStudent].value;
      students[posStudent] := Some(s.(attended := s.attended + {courseCode}));
      assert Enrolled() == old(Enrolled())[posStudent := s.(attended := s.attended + {courseCode})];
      r := Done(());
      ghost var u: () := r.value;
      assert u == ();
    }

    /** `listAttendees`: one line per student registered to the course, in
        ID order. The course is looked up only when some student is
        enrolled. */
    method ListAttendees(courseCode: int, describe: Student -> string) returns (r: Outcome<string>)
      requires Valid()
      ensures enrolledStudents == 0 ==> r == Done("")
      ensures enrolledStudents > 0 && !(0 <= courseCode - FIRST_COURSE_CODE < MAX_COURSES) ==> r == Thrown(IndexOutOfBounds)
      ensures enrolledStudents > 0 && 0 <= courseCode - FIRST_COURSE_CODE < MAX_COURSES && courseCode - FIRST_COURSE_CODE >= activeCourses ==>
        r == Thrown(NullDereference)
      ensures enrolledStudents > 0 && 0 <= courseCode - FIRST_COURSE_CODE < activeCourses ==>
        r == Done(Lines(Attendees(Enrolled(), Active()[courseCode - FIRST_COURSE_CODE].participants), describe))
    {
      var info := "";
      var pos := courseCode - FIRST_COURSE_CODE;
      ghost var ss := Enrolled();
      ghost var participants := if 0 <= pos < activeCourses then Active()[pos].participants else {};
      var i := 0;
      while i < enrolledStudents
        invariant 0 <= i <= enrolledStudents
        invariant i > 0 ==> 0 <= pos < activeCourses
        invariant info == Lines(Attendees(ss[..i], participants), describe)
      {
        if pos < 0 || pos >= courses.Length {
          return Thrown(IndexOutOfBounds);
        }
        if courses[pos].None? {
          return Thrown(NullDereference);
        }
        assert courses[pos].value.participants == participants;
        assert ss[..i + 1][..i] == ss[..i];
        assert students[i].value == ss[i];
        if i + FIRST_ID_STUDENT in courses[pos].value.participants {
          LinesSnoc(Attendees(ss[..i], participants), students[i].value, describe);
          info := info + describe(students[i].value) + "\n";
        }
        i := i + 1;
      }
      assert ss[..i] == ss;
      r := Done(info);
    }

    /** `studyPlan`: one line per course the student attends, in code
        order. The student is looked up only when some course is active. */
    method StudyPlan(studentId: int, describe: Course -> string) returns (r: Outcome<string>)
      requires Valid()
      ensures activeCourses == 0 ==> r == Done("")
      ensures activeCourses > 0 && !(0 <= studentId - FIRST_ID_STUDENT < MAX_STUDENTS) ==> r == Thrown(IndexOutOfBounds)
      ensures activeCourses > 0 && 0 <= studentId - FIRST_ID_STUDENT < MAX_STUDENTS && studentId - FIRST_ID_STUDENT >= enrolledStudents ==>
        r == Thrown(NullDereference)
      ensures activeCourses > 0 && 0 <= studentId - FIRST_ID_STUDENT < enrolledStudents ==>
        r == Done(Lines(Plan(Active(), Enrolled()[studentId - FIRST_ID_STUDENT].attended), describe))
    {
      var info := "";
      var pos := studentId - FIRST_ID_STUDENT;
      ghost var cs := Active();
      ghost var attended := if 0 <= pos < enrolledStudents then Enrolled()[pos].attended else {};
      var i := 0;
      while i < activeCourses
        invariant 0 <= i <= activeCourses
        invariant i > 0 ==> 0 <= pos < enrolledStudents
        invariant info == Lines(Plan(cs[..i], attended), describe)
      {
        if pos < 0 || pos >= students.Length {
          return Thrown(IndexOutOfBounds);
        }
        if students[pos].None? {
          return Thrown(NullDereference);
        }
        assert students[pos].value.attended == attended;
        assert cs[..i + 1][..i] == cs[..i];
        assert courses[i].value == cs[i];
        if i + FIRST_COURSE_CODE in students[pos].value.attended {
          LinesSnoc(Plan(cs[..i], attended), courses[i].value, describe);
          info := info + describe(courses[i].value) + "\n";
        }
        i := i + 1;
      }
      assert cs[..i] == cs;
      r := Done(info);
    }

    // -------------------------------------------------------------------
    // Properties

    /** IDs are consecutive from 10000 in enrolment order, hence distinct,
        and every enrolled ID leads back to its student. */
    lemma IdsConsecutive()
      requires Valid()
      ensures forall i :: 0 <= i < |Enrolled()| ==> Enrolled()[i].id == FIRST_ID_STUDENT + i
      ensures StudentIdsAscending(Enrolled())
      ensures forall i :: 0 <= i < |Active()| ==> Active()[i].code == FIRST_COURSE_CODE + i
      ensures CourseCodesAscending(Active())
    {
    }

    /** `listAttendees` lists its students by increasing ID. */
    lemma AttendeesByIncreasingId(participants: set<int>)
      requires Valid()
      ensures StudentIdsAscending(Attendees(Enrolled(), participants))
    {
      IdsConsecutive();
      AttendeesAscending(Enrolled(), participants);
    }

    /** `studyPlan` lists its courses by increasing code. */
    lemma PlanByIncreasingCode(attended: set<int>)
      requires Valid()
      ensures CourseCodesAscending(Plan(Active(), attended))
    {
      IdsConsecutive();
      PlanAscending(Active(), attended);
    }
  }
}
