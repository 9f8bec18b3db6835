/** The records the routes and the page exchange. Roles, section names and entry
    types stay strings, as in the source, which compares them as strings. */
module Model {
  import opened Seqs

  const MENTOR := "mentor"
  const STUDENT := "student"

  const SYLLABUS := "syllabus"
  const NOTES := "notes"
  const ASSIGNMENTS := "assignments"

  const QUESTION := "question"
  const ANSWER := "answer"
  const FILE := "file"

  /** The identity the authentication middleware attaches to a request (`req.user`). */
  datatype Actor = Actor(role: string, id: string)

  /** One element of `syllabus`, `notes` or `assignments`; `kind` is the source's `type`. */
  datatype FileEntry = FileEntry(
    title: string,
    fileUrl: string,
    uploadedBy: string,
    uploadedByModel: string,
    role: string,
    kind: string,
    uploadedAt: nat)

  datatype Course = Course(
    id: string,
    title: string,
    description: string,
    createdBy: string,
    mentorName: string,
    color: string,
    colorName: string,
    studentsEnrolled: seq<string>,
    syllabus: seq<FileEntry>,
    notes: seq<FileEntry>,
    assignments: seq<FileEntry>)

  datatype Mentor = Mentor(name: string, createdCourses: seq<string>)

  datatype Student = Student(name: string, joinedCourses: seq<string>)

  /** What the upload middleware hands the route (`req.file`). */
  datatype UploadedFile = UploadedFile(originalname: string, path: string)

  /** An HTTP reply: a success status with its body, or an error status with its `msg`. */
  datatype Reply<T> = Ok(status: nat, body: T) | Fail(status: nat, msg: string)

  datatype Option<T> = None | Some(value: T)

  predicate IsSection(name: string) {
    name == SYLLABUS || name == NOTES || name == ASSIGNMENTS
  }

  /** `course[section]` */
  function Section(c: Course, name: string): seq<FileEntry>
    requires IsSection(name)
  {
    if name == SYLLABUS then c.syllabus
    else if name == NOTES then c.notes
    else c.assignments
  }

  /** `course[section].push(e)` */
  function AppendEntry(c: Course, name: string, e: FileEntry): (r: Course)
    requires IsSection(name)
    ensures Section(r, name) == Section(c, name) + [e]
    ensures forall other :: IsSection(other) && other != name ==> Section(r, other) == Section(c, other)
    ensures r.(syllabus := [], notes := [], assignments := []) == c.(syllabus := [], notes := [], assignments := [])
  {
    if name == SYLLABUS then c.(syllabus := c.syllabus + [e])
    else if name == NOTES then c.(notes := c.notes + [e])
    else c.(assignments := c.assignments + [e])
  }

  /** The consistency the routes keep between the course documents and the
      `createdCourses` / `joinedCourses` back-references: a registered mentor
      lists exactly the courses it created, a registered student exactly the
      courses it is enrolled in, each once. */
  ghost predicate CoursesKeyed(courses: map<string, Course>) {
    forall id :: id in courses ==> courses[id].id == id && NoDuplicates(courses[id].studentsEnrolled)
  }

  ghost predicate MentorRefsSound(mentors: map<string, Mentor>, courses: map<string, Course>) {
    forall m :: m in mentors ==>
      NoDuplicates(mentors[m].createdCourses) &&
      forall c :: c in mentors[m].createdCourses <==> c in courses && courses[c].createdBy == m
  }

  ghost predicate StudentRefsSound(students: map<string, Student>, courses: map<string, Course>) {
    forall s :: s in students ==>
      NoDuplicates(students[s].joinedCourses) &&
      forall c :: c in students[s].joinedCourses <==> c in courses && s in courses[c].studentsEnrolled
  }

  /** The courses after student `sid` is added to the roster of course `cid`. */
  function Enrolled(courses: map<string, Course>, cid: string, sid: string): (r: map<string, Course>)
    requires cid in courses
    ensures r.Keys == courses.Keys
    ensures forall c :: c in r && c != cid ==> r[c] == courses[c]
    ensures r[cid] == courses[cid].(studentsEnrolled := courses[cid].studentsEnrolled + [sid])
  {
    courses[cid := courses[cid].(studentsEnrolled := courses[cid].studentsEnrolled + [sid])]
  }

  /** The students after `sid`, when registered, records that it joined `cid`. */
  function Joined(students: map<string, Student>, cid: string, sid: string): (r: map<string, Student>)
    ensures r.Keys == students.Keys
    ensures forall s :: s in r && s != sid ==> r[s] == students[s]
    ensures sid in r ==> r[sid] == students[sid].(joinedCourses := students[sid].joinedCourses + [cid])
  {
    if sid in students then students[sid := students[sid].(joinedCourses := students[sid].joinedCourses + [cid])]
    else students
  }

  /** A first-time join keeps every collection's back-references consistent. */
  lemma EnrolKeepsRefsSound(mentors: map<string, Mentor>, students: map<string, Student>,
                            courses: map<string, Course>, cid: string, sid: string)
    requires CoursesKeyed(courses) && MentorRefsSound(mentors, courses) && StudentRefsSound(students, courses)
    requires cid in courses && sid !in courses[cid].studentsEnrolled
    ensures CoursesKeyed(Enrolled(courses, cid, sid))
    ensures MentorRefsSound(mentors, Enrolled(courses, cid, sid))
    ensures StudentRefsSound(Joined(students, cid, sid), Enrolled(courses, cid, sid))
  {
    AppendFreshKeepsNoDuplicates(courses[cid].studentsEnrolled, sid);
    if sid in students {
      AppendFreshKeepsNoDuplicates(students[sid].joinedCourses, cid);
    }
  }
}
