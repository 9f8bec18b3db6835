/** The course directory routes (Backend/routes/courses.js): create a course,
    join one, list all courses, and list a course's enrolled students. */
module CourseRoutes {
  import opened Model
  import opened Seqs
  import opened Database

  const UNAUTHORIZED := "Unauthorized"
  const MISSING_FIELDS := "Missing required fields"
  const MENTOR_NOT_FOUND := "Mentor not found"
  const COURSE_NOT_FOUND := "Course not found"
  const JOINED := "Joined course successfully"
  const NOT_YOUR_COURSE := "You are not authorized to view this course students"

  /** The fields GET / selects from every course. */
  datatype CourseListing = CourseListing(
    id: string,
    title: string,
    description: string,
    mentorName: string,
    color: string,
    colorName: string,
    studentsEnrolled: seq<string>,
    createdBy: string)

  function Listing(c: Course): CourseListing {
    CourseListing(c.id, c.title, c.description, c.mentorName, c.color, c.colorName,
                  c.studentsEnrolled, c.createdBy)
  }

  /** POST /create. `newId` is the fresh id the database gives the new document. */
  method CreateCourse(db: Store, a: Actor, title: string, description: string, color: string,
                      colorName: string, newId: string) returns (r: Reply<Course>)
    requires db.Valid() && newId !in db.courses
    modifies db
    ensures db.Valid()
    ensures db.students == old(db.students)
    ensures a.role != MENTOR ==> r == Fail(403, UNAUTHORIZED)
    ensures a.role == MENTOR && (title == "" || description == "" || color == "" || colorName == "") ==>
      r == Fail(400, MISSING_FIELDS)
    ensures (a.role == MENTOR && title != "" && description != "" && color != "" && colorName != ""
             && a.id !in old(db.mentors)) ==> r == Fail(404, MENTOR_NOT_FOUND)
    ensures r.Fail? ==> db.courses == old(db.courses) && db.mentors == old(db.mentors)
    ensures r.Ok? <==> a.role == MENTOR && title != "" && description != "" && color != ""
                       && colorName != "" && a.id in old(db.mentors)
    ensures r.Ok? ==>
      var m := old(db.mentors)[a.id];
      var c := Course(newId, title, description, a.id, m.name, color, colorName, [], [], [], []);
      r == Ok(201, c)
      && db.courses == old(db.courses)[newId := c]
      && db.mentors == old(db.mentors)[a.id := m.(createdCourses := m.createdCourses + [newId])]
  {
    if a.role != MENTOR {
      return Fail(403, UNAUTHORIZED);
    }
    if title == "" || description == "" || color == "" || colorName == "" {
      return Fail(400, MISSING_FIELDS);
    }
    if a.id !in db.mentors {
      return Fail(404, MENTOR_NOT_FOUND);
    }
    var mentor := db.mentors[a.id];
    var course := Course(newId, title, description, a.id, mentor.name, color, colorName, [], [], [], []);
    db.courses := db.courses[newId := course];
    AppendFreshKeepsNoDuplicates(mentor.createdCourses, newId);
    db.mentors := db.mentors[a.id := mentor.(createdCourses := mentor.createdCourses + [newId])];
    return Ok(201, course);
  }

  /** POST /join/:id. Joining twice is joining once: an enrolled student changes nothing. */
  method JoinCourse(db: Store, a: Actor, courseId: string) returns (r: Reply<string>)
    requires db.Valid()
    modifies db
    ensures db.Valid()
    ensures db.mentors == old(db.mentors)
    ensures a.role != STUDENT ==> r == Fail(403, UNAUTHORIZED)
    ensures a.role == STUDENT && courseId !in old(db.courses) ==> r == Fail(404, COURSE_NOT_FOUND)
    ensures r.Ok? <==> a.role == STUDENT && courseId in old(db.courses)
    ensures r.Ok? ==> r == Ok(200, JOINED)
    ensures r.Fail? || a.id in old(db.courses)[courseId].studentsEnrolled ==>
      db.courses == old(db.courses) && db.students == old(db.students)
    ensures r.Ok? && a.id !in old(db.courses)[courseId].studentsEnrolled ==>
      var c := old(db.courses)[courseId];
      db.courses == old(db.courses)[courseId := c.(studentsEnrolled := c.studentsEnrolled + [a.id])]
      && db.students == (if a.id in old(db.students)
                         then old(db.students)[a.id := old(db.students)[a.id].(
                                joinedCourses := old(db.students)[a.id].joinedCourses + [courseId])]
                         else old(db.students))
    ensures r.Ok? ==> multiset(db.courses[courseId].studentsEnrolled)[a.id] == 1
    ensures r.Ok? && a.id in db.students ==> courseId in db.students[a.id].joinedCourses
  {
    if a.role != STUDENT {
      return Fail(403, UNAUTHORIZED);
    }
    if courseId !in db.courses {
      return Fail(404, COURSE_NOT_FOUND);
    }
    var course := db.courses[courseId];
    if a.id !in course.studentsEnrolled {
      EnrolKeepsRefsSound(db.mentors, db.students, db.courses, courseId, a.id);
      db.courses := Enrolled(db.courses, courseId, a.id);
      db.students := Joined(db.students, courseId, a.id);
    }
    NoDuplicatesOccursOnce(db.courses[courseId].studentsEnrolled, a.id);
    return Ok(200, JOINED);
  }

  /** GET /: every course, none filtered out. */
  method ListCourses(db: Store) returns (r: map<string, CourseListing>)
    ensures r.Keys == db.courses.Keys
    ensures forall id :: id in r ==> r[id] == Listing(db.courses[id])
  {
    r := map id | id in db.courses :: Listing(db.courses[id]);
  }

  /** GET /:id/students. The role is checked before the lookup. */
  method EnrolledStudents(db: Store, a: Actor, courseId: string) returns (r: Reply<seq<string>>)
    ensures a.role != MENTOR ==> r == Fail(403, UNAUTHORIZED)
    ensures a.role == MENTOR && courseId !in db.courses ==> r == Fail(404, COURSE_NOT_FOUND)
    ensures a.role == MENTOR && courseId in db.courses && db.courses[courseId].createdBy != a.id ==>
      r == Fail(403, NOT_YOUR_COURSE)
    ensures r.Ok? <==> courseId in db.courses && a.role == MENTOR && db.courses[courseId].createdBy == a.id
    ensures r.Ok? ==> r.status == 200 && r.body == db.courses[courseId].studentsEnrolled
  {
    if a.role != MENTOR {
      return Fail(403, UNAUTHORIZED);
    }
    if courseId !in db.courses {
      return Fail(404, COURSE_NOT_FOUND);
    }
    var course := db.courses[courseId];
    if course.createdBy != a.id {
      return Fail(403, NOT_YOUR_COURSE);
    }
    return Ok(200, course.studentsEnrolled);
  }
}
