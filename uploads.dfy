/** The pure parts of an upload to a course section (Backend/routes/courseDetail.js):
    the storage directory and stored filename the disk-storage configuration
    chooses, and the fields of the entry the route appends. */
module Uploads {
  import opened Text
  import opened Model
  import opened Access

  const QUESTIONS_DIR := "uploads/assignments/questions"
  const ANSWERS_DIR := "uploads/assignments/answers"
  const NOTES_DIR := "uploads/notes"
  const SYLLABUS_DIR := "uploads/syllabus"
  const OTHERS_DIR := "uploads/others"

  /** The `destination` callback: the directory a file is written to. */
  function StorageDir(section: string, role: string): string {
    "uploads/" +
    if section == ASSIGNMENTS then
      (if role == MENTOR then "assignments/questions" else "assignments/answers")
    else if section == NOTES then "notes"
    else if section == SYLLABUS then "syllabus"
    else "others"
  }

  /** Where each section's files land; only assignments are split, by role. */
  lemma StorageDirBySection(section: string, role: string)
    ensures section == ASSIGNMENTS && role == MENTOR ==> StorageDir(section, role) == QUESTIONS_DIR
    ensures section == ASSIGNMENTS && role != MENTOR ==> StorageDir(section, role) == ANSWERS_DIR
    ensures section == NOTES ==> StorageDir(section, role) == NOTES_DIR
    ensures section == SYLLABUS ==> StorageDir(section, role) == SYLLABUS_DIR
    ensures !IsSection(section) ==> StorageDir(section, role) == OTHERS_DIR
  {
  }

  /** The `filename` callback: `<timestamp>-<name with whitespace runs dashed>`. */
  function StoredName(timestamp: nat, originalname: string): (r: string)
    ensures NoSpace(r)
  {
    var d := Decimal(timestamp);
    assert forall i :: 0 <= i < |d| ==> IsDigit(d[i]);
    d + "-" + DashSpaceRuns(originalname)
  }

  /** A stored name gives back its timestamp and its rewritten original name. */
  lemma StoredNameInjective(t1: nat, n1: string, t2: nat, n2: string)
    requires StoredName(t1, n1) == StoredName(t2, n2)
    ensures t1 == t2 && DashSpaceRuns(n1) == DashSpaceRuns(n2)
  {
    DecimalHasNoDash(t1);
    DecimalHasNoDash(t2);
    DashJoinInjective(Decimal(t1), DashSpaceRuns(n1), Decimal(t2), DashSpaceRuns(n2));
    DecimalInjective(t1, t2);
  }

  /** A name without whitespace is stored as it is, after the timestamp and a dash. */
  lemma StoredNameKeepsPlainNames(timestamp: nat, name: string)
    requires NoSpace(name)
    ensures StoredName(timestamp, name) == Decimal(timestamp) + "-" + name
  {
    DashSpaceRunsKeepsPlainNames(name);
  }

  /** Each whitespace run of the original name is stored as exactly one dash. */
  lemma StoredNameDashesRuns(timestamp: nat, a: string, w: string, b: string)
    requires a == [] || !IsSpace(a[|a| - 1])
    requires w != [] && IsBlank(w)
    requires b == [] || !IsSpace(b[0])
    ensures StoredName(timestamp, a + w + b) == StoredName(timestamp, a) + "-" + DashSpaceRuns(b)
  {
    var p := Decimal(timestamp) + "-";
    var x := DashSpaceRuns(a);
    DashSpaceRunsJoin(a, w, b);
    ConcatAssoc(p, x + "-", DashSpaceRuns(b));
    ConcatAssoc(p, x, "-");
  }

  /** `fileType` */
  function FileType(section: string, isMentor: bool): string {
    if section == ASSIGNMENTS then (if isMentor then QUESTION else ANSWER) else FILE
  }

  /** `req.body.title || req.file.originalname` */
  function EntryTitle(title: string, originalname: string): (r: string)
    ensures title != "" ==> r == title
    ensures title == "" ==> r == originalname
  {
    if title != "" then title else originalname
  }

  /** The entry appended by an upload that passed the section and ownership checks. */
  function NewEntry(a: Actor, c: Course, section: string, title: string, file: UploadedFile, now: nat): (e: FileEntry)
    requires IsSection(section) && !UploadDenied(a, c, section)
    ensures e.kind == QUESTION <==> section == ASSIGNMENTS && IsMentorOwner(a, c)
    ensures e.kind == ANSWER <==> section == ASSIGNMENTS && IsEnrolledStudent(a, c)
    ensures e.kind == FILE <==> section != ASSIGNMENTS
    ensures e.title == (if title != "" then title else file.originalname)
    ensures e.fileUrl == SlashNormalize(file.path) && '\\' !in e.fileUrl
    ensures a.role == MENTOR ==> e.uploadedByModel == "Mentor"
    ensures a.role != MENTOR ==> e.uploadedByModel == "Student"
    ensures e.uploadedBy == a.id && e.role == a.role && e.uploadedAt == now
  {
    SlashNormalizeRemovesBackslashes(file.path);
    FileEntry(
      EntryTitle(title, file.originalname),
      SlashNormalize(file.path),
      a.id,
      if a.role == MENTOR then "Mentor" else "Student",
      a.role,
      FileType(section, IsMentorOwner(a, c)),
      now)
  }

  /** For every upload that gets past the checks, the storage split of assignments
      agrees with the entry's type: questions are stored under the questions
      directory and answers under the answers directory. */
  lemma StorageAgreesWithType(a: Actor, c: Course, title: string, file: UploadedFile, now: nat)
    requires !UploadDenied(a, c, ASSIGNMENTS)
    ensures var e := NewEntry(a, c, ASSIGNMENTS, title, file, now);
      (e.kind == QUESTION <==> StorageDir(ASSIGNMENTS, a.role) == QUESTIONS_DIR) &&
      (e.kind == ANSWER <==> StorageDir(ASSIGNMENTS, a.role) == ANSWERS_DIR)
  {
    var e := NewEntry(a, c, ASSIGNMENTS, title, file, now);
    StorageDirBySection(ASSIGNMENTS, a.role);
    assert QUESTIONS_DIR != ANSWERS_DIR by {
      assert QUESTIONS_DIR[20] != ANSWERS_DIR[20];
    }
    if a.role == MENTOR {
      assert IsMentorOwner(a, c) && e.kind == QUESTION;
    } else {
      assert IsEnrolledStudent(a, c) && e.kind == ANSWER;
    }
  }
}
