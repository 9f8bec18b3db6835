/** The course content routes (Backend/routes/courseDetail.js): view a course,
    upload a file to one of its sections, and edit its description. */
module CourseDetailRoutes {
  import opened Model
  import opened Access
  import opened Uploads
  import opened Database

  const NOT_FOUND := "Course not found"
  const ACCESS_DENIED := "Access denied"
  const BAD_SECTION := "Invalid section. Must be syllabus, notes, or assignments."
  const MENTOR_ONLY_UPLOAD := "Only mentors can upload syllabus or notes."
  const MEMBERS_ONLY_UPLOAD := "Only enrolled students or mentor can upload assignments."
  const NO_FILE := "No file uploaded"
  const DESCRIPTION_REQUIRED := "Description is required"
  const MENTOR_ONLY_DESCRIPTION := "Only the mentor can update description"

  /** GET /:id */
  method GetCourse(db: Store, a: Actor, id: string) returns (r: Reply<Course>)
    ensures id !in db.courses ==> r == Fail(404, NOT_FOUND)
    ensures id in db.courses && !CanView(a, db.courses[id]) ==> r == Fail(403, ACCESS_DENIED)
    ensures r.Ok? <==> id in db.courses && CanView(a, db.courses[id])
    ensures r.Ok? ==> r == Ok(200, db.courses[id])
  {
    if id !in db.courses {
      return Fail(404, NOT_FOUND);
    }
    var course := db.courses[id];
    var isMentor := IsMentorOwner(a, course);
    var isStudent := IsEnrolledStudent(a, course);
    if !isMentor && !isStudent {
      return Fail(403, ACCESS_DENIED);
    }
    return Ok(200, course);
  }

  /** POST /:id/:section: the section is checked first, then the course is
      loaded, then ownership is checked, then the file's presence. */
  method UploadFile(db: Store, a: Actor, id: string, section: string, title: string,
                    file: Option<UploadedFile>, now: nat) returns (r: Reply<Course>)
    requires db.Valid()
    modifies db
    ensures db.Valid()
    ensures db.mentors == old(db.mentors) && db.students == old(db.students)
    ensures !IsSection(section) ==> r == Fail(400, BAD_SECTION)
    ensures IsSection(section) && id !in old(db.courses) ==> r == Fail(404, NOT_FOUND)
    ensures IsSection(section) && id in old(db.courses) && UploadDenied(a, old(db.courses)[id], section) ==>
      r == Fail(403, if section == ASSIGNMENTS then MEMBERS_ONLY_UPLOAD else MENTOR_ONLY_UPLOAD)
    ensures (IsSection(section) && id in old(db.courses) && !UploadDenied(a, old(db.courses)[id], section)
             && file.None?) ==> r == Fail(400, NO_FILE)
    ensures r.Fail? ==> db.courses == old(db.courses)
    ensures r.Ok? <==> IsSection(section) && id in old(db.courses)
                       && !UploadDenied(a, old(db.courses)[id], section) && file.Some?
    ensures r.Ok? ==>
      var c := old(db.courses)[id];
      var e := NewEntry(a, c, section, title, file.value, now);
      db.courses == old(db.courses)[id := AppendEntry(c, section, e)] && r == Ok(200, db.courses[id])
  {
    if !IsSection(section) {
      return Fail(400, BAD_SECTION);
    }
    if id !in db.courses {
      return Fail(404, NOT_FOUND);
    }
    var course := db.courses[id];
    var isMentor := IsMentorOwner(a, course);
    var isStudent := IsEnrolledStudent(a, course);
    if (section == SYLLABUS || section == NOTES) && !isMentor {
      return Fail(403, MENTOR_ONLY_UPLOAD);
    }
    if section == ASSIGNMENTS && !isMentor && !isStudent {
      return Fail(403, MEMBERS_ONLY_UPLOAD);
    }
    if file.None? {
      return Fail(400, NO_FILE);
    }
    var entry := NewEntry(a, course, section, title, file.value, now);
    course := AppendEntry(course, section, entry);
    db.courses := db.courses[id := course];
    return Ok(200, course);
  }

  /** PUT /:id/description: an empty description is refused before the lookup. */
  method UpdateDescription(db: Store, a: Actor, id: string, description: string) returns (r: Reply<Course>)
    requires db.Valid()
    modifies db
    ensures db.Valid()
    ensures db.mentors == old(db.mentors) && db.students == old(db.students)
    ensures description == "" ==> r == Fail(400, DESCRIPTION_REQUIRED)
    ensures description != "" && id !in old(db.courses) ==> r == Fail(404, NOT_FOUND)
    ensures description != "" && id in old(db.courses) && !IsMentorOwner(a, old(db.courses)[id]) ==>
      r == Fail(403, MENTOR_ONLY_DESCRIPTION)
    ensures r.Fail? ==> db.courses == old(db.courses)
    ensures r.Ok? <==> description != "" && id in old(db.courses) && IsMentorOwner(a, old(db.courses)[id])
    ensures r.Ok? ==>
      db.courses == old(db.courses)[id := old(db.courses)[id].(description := description)]
      && r == Ok(200, db.courses[id])
  {
    if description == "" {
      return Fail(400, DESCRIPTION_REQUIRED);
    }
    if id !in db.courses {
      return Fail(404, NOT_FOUND);
    }
    var course := db.courses[id];
    if !(a.role == MENTOR && course.createdBy == a.id) {
      return Fail(403, MENTOR_ONLY_DESCRIPTION);
    }
    course := course.(description := description);
    db.courses := db.courses[id := course];
    return Ok(200, course);
  }
}
