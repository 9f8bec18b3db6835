/** The server's ownership predicates and the rules built on them
    (Backend/routes/courseDetail.js). */
module Access {
  import opened Model

  /** `isMentor`: the actor is a mentor and created the course. */
  predicate IsMentorOwner(a: Actor, c: Course) {
    a.role == MENTOR && c.createdBy == a.id
  }

  /** `isStudent`: the actor is a student and is enrolled in the course. */
  predicate IsEnrolledStudent(a: Actor, c: Course) {
    a.role == STUDENT && a.id in c.studentsEnrolled
  }

  /** The view rule of GET /:id. */
  predicate CanView(a: Actor, c: Course) {
    IsMentorOwner(a, c) || IsEnrolledStudent(a, c)
  }

  /** The two 403 guards of the upload route, as written. */
  predicate UploadDenied(a: Actor, c: Course, section: string) {
    ((section == SYLLABUS || section == NOTES) && !IsMentorOwner(a, c))
    || (section == ASSIGNMENTS && !IsMentorOwner(a, c) && !IsEnrolledStudent(a, c))
  }

  /** The two ownership predicates never hold together: they need different roles. */
  lemma OwnerAndStudentExclusive(a: Actor, c: Course)
    ensures !(IsMentorOwner(a, c) && IsEnrolledStudent(a, c))
  {
  }

  /** Per section, who gets past the upload guards. */
  lemma UploadRule(a: Actor, c: Course, section: string)
    requires IsSection(section)
    ensures section != ASSIGNMENTS ==> (!UploadDenied(a, c, section) <==> IsMentorOwner(a, c))
    ensures section == ASSIGNMENTS ==> (!UploadDenied(a, c, section) <==> CanView(a, c))
  {
  }
}
