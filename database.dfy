/** The document store the routes read and write: the Course, Mentor and Student
    collections, each a map from document id to document. */
module Database {
  import opened Model

  class Store {
    var courses: map<string, Course>
    var mentors: map<string, Mentor>
    var students: map<string, Student>

    /** Every course is stored under its own id with a duplicate-free enrolment
        list, and every back-reference names a course that points back. */
    ghost predicate Valid()
      reads this
    {
      CoursesKeyed(courses) && MentorRefsSound(mentors, courses) && StudentRefsSound(students, courses)
    }

    /** A store holding the registered accounts and no courses yet. */
    constructor (mentors: map<string, Mentor>, students: map<string, Student>)
      requires forall m :: m in mentors ==> mentors[m].createdCourses == []
      requires forall s :: s in students ==> students[s].joinedCourses == []
      ensures Valid()
      ensures this.courses == map[] && this.mentors == mentors && this.students == students
    {
      this.courses := map[];
      this.mentors := mentors;
      this.students := students;
    }
  }
}
