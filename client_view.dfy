/** The decisions the course page makes from the course it fetched
    (src/Pages/CourseDetail.jsx): who sees upload and delete buttons, how the
    assignments tab splits entries, the per-file state key, and PDF detection. */
module CourseDetailView {
  import opened Text
  import opened Seqs
  import opened Model
  import opened Access
  import opened Uploads

  /** The page's `isMentor`; `user` is absent when nobody is logged in. */
  predicate PageIsMentor(user: Option<Actor>, c: Course) {
    user.Some? && user.value.role == MENTOR && c.createdBy == user.value.id
  }

  /** The page's `isStudent`. */
  predicate PageIsStudent(user: Option<Actor>, c: Course) {
    user.Some? && user.value.role == STUDENT && user.value.id in c.studentsEnrolled
  }

  /** `canUpload(section)` */
  predicate CanUpload(user: Option<Actor>, c: Course, section: string) {
    if section == SYLLABUS || section == NOTES then PageIsMentor(user, c)
    else if section == ASSIGNMENTS then PageIsMentor(user, c) || PageIsStudent(user, c)
    else false
  }

  /** `canDelete` in `renderFileItem`: the owning mentor, or a student on an
      assignment entry that names the student as its uploader. */
  predicate CanDelete(user: Option<Actor>, c: Course, section: string, item: FileEntry) {
    PageIsMentor(user, c)
    || (section == ASSIGNMENTS && user.Some? && user.value.role == STUDENT && item.uploadedBy == user.value.id)
  }

  /** The page shows an upload button exactly when the server would accept the
      upload's section and ownership checks. */
  lemma CanUploadMatchesServer(a: Actor, c: Course, section: string)
    ensures PageIsMentor(Some(a), c) == IsMentorOwner(a, c)
    ensures PageIsStudent(Some(a), c) == IsEnrolledStudent(a, c)
    ensures CanUpload(Some(a), c, section) <==> IsSection(section) && !UploadDenied(a, c, section)
  {
  }

  /** Who may delete what, seen from the page. */
  lemma CanDeleteRule(user: Option<Actor>, c: Course, section: string, item: FileEntry)
    ensures section != ASSIGNMENTS ==> (CanDelete(user, c, section, item) <==> PageIsMentor(user, c))
    ensures user.Some? && user.value.role == STUDENT ==>
      (CanDelete(user, c, section, item) <==> section == ASSIGNMENTS && item.uploadedBy == user.value.id)
    ensures user.None? ==> !CanDelete(user, c, section, item)
  {
  }

  /** Whoever uploaded an assignment entry through the server may delete it on the page. */
  lemma UploaderMayDelete(a: Actor, c: Course, title: string, file: UploadedFile, now: nat)
    requires !UploadDenied(a, c, ASSIGNMENTS)
    ensures CanDelete(Some(a), c, ASSIGNMENTS, NewEntry(a, c, ASSIGNMENTS, title, file, now))
  {
  }

  function HasKind(kind: string): FileEntry -> bool {
    (e: FileEntry) => e.kind == kind
  }

  /** `questions` in `renderAssignments` */
  function Questions(assignments: seq<FileEntry>): seq<FileEntry> {
    Filter(HasKind(QUESTION), assignments)
  }

  /** `answers` in `renderAssignments` */
  function Answers(assignments: seq<FileEntry>): seq<FileEntry> {
    Filter(HasKind(ANSWER), assignments)
  }

  /** The two lists are disjoint, hold exactly the entries of their type, and
      together hold no more entries than the section. */
  lemma QuestionsAnswersPartition(assignments: seq<FileEntry>)
    ensures forall e :: e in Questions(assignments) <==> e in assignments && e.kind == QUESTION
    ensures forall e :: e in Answers(assignments) <==> e in assignments && e.kind == ANSWER
    ensures forall e :: !(e in Questions(assignments) && e in Answers(assignments))
    ensures |Questions(assignments)| + |Answers(assignments)| <= |assignments|
  {
    FilterExclusiveSizes(HasKind(QUESTION), HasKind(ANSWER), assignments);
  }

  /** After an accepted assignment upload, the owner's entry is the last
      question and a student's the last answer; the other list is unchanged. */
  lemma UploadExtendsAssignmentsView(a: Actor, c: Course, title: string, file: UploadedFile, now: nat)
    requires !UploadDenied(a, c, ASSIGNMENTS)
    ensures var e := NewEntry(a, c, ASSIGNMENTS, title, file, now);
      var after := AppendEntry(c, ASSIGNMENTS, e).assignments;
      if IsMentorOwner(a, c) then
        Questions(after) == Questions(c.assignments) + [e] && Answers(after) == Answers(c.assignments)
      else
        Answers(after) == Answers(c.assignments) + [e] && Questions(after) == Questions(c.assignments)
  {
    var e := NewEntry(a, c, ASSIGNMENTS, title, file, now);
    FilterAppend(HasKind(QUESTION), c.assignments, [e]);
    FilterAppend(HasKind(ANSWER), c.assignments, [e]);
  }

  /** `${section}-${index}`, the key of the per-file summary state. */
  function SummaryKey(section: string, index: nat): string {
    section + "-" + Decimal(index)
  }

  /** Over dash-free section names, the key determines the section and the index. */
  lemma SummaryKeyInjective(s1: string, i1: nat, s2: string, i2: nat)
    requires '-' !in s1 && '-' !in s2
    ensures SummaryKey(s1, i1) == SummaryKey(s2, i2) ==> s1 == s2 && i1 == i2
  {
    if SummaryKey(s1, i1) == SummaryKey(s2, i2) {
      DashJoinInjective(s1, Decimal(i1), s2, Decimal(i2));
      DecimalInjective(i1, i2);
    }
  }

  /** `ext === 'pdf'` where `ext = fileUrl.split('.').pop().toLowerCase()` */
  predicate IsPdf(url: string) {
    Lower(AfterLastDot(url)) == "pdf"
  }

  /** A url is a PDF exactly when its last three characters spell "pdf" in any
      case and either make up the whole url or follow a dot. */
  lemma {:induction false} IsPdfIffExtension(url: string)
    ensures IsPdf(url) <==>
      |url| >= 3 && Lower(url[|url| - 3..]) == "pdf" && (|url| == 3 || url[|url| - 4] == '.')
  {
    var r := AfterLastDot(url);
    var n := |url|;
    if n >= 3 && Lower(url[n - 3..]) == "pdf" && (n == 3 || url[n - 4] == '.') {
      var t := url[n - 3..];
      forall i | 0 <= i < |t|
        ensures t[i] != '.'
      {
        assert LowerChar(t[i]) == "pdf"[i];
      }
      AfterLastDotIsDotFreeTail(url, n - 3);
    }
  }

  /** What `renderFileItem` shows for one entry. */
  datatype ItemView = ItemView(key: string, title: string, isPdf: bool, summarizable: bool, deletable: bool)

  /** `renderFileItem(item, section, idx)`; an entry without a url renders nothing.
      A rendered item is a PDF when its url ends in "pdf" (any case) that is the
      whole url or follows a dot; only notes PDFs can be summarized. The owning
      mentor may delete anything, a student only an assignment entry naming that
      student as uploader, and nobody else anything. */
  function RenderItem(user: Option<Actor>, c: Course, item: FileEntry, section: string, idx: nat): (v: Option<ItemView>)
    ensures v.None? <==> item.fileUrl == ""
    ensures v.Some? ==> v.value.key == SummaryKey(section, idx) && v.value.title == item.title
    ensures v.Some? ==> var u := item.fileUrl;
      (v.value.isPdf <==> |u| >= 3 && Lower(u[|u| - 3..]) == "pdf" && (|u| == 3 || u[|u| - 4] == '.'))
    ensures v.Some? ==> (v.value.summarizable <==> section == NOTES && v.value.isPdf)
    ensures v.Some? && user.None? ==> !v.value.deletable
    ensures v.Some? && user.Some? && user.value.role == MENTOR ==>
      (v.value.deletable <==> c.createdBy == user.value.id)
    ensures v.Some? && user.Some? && user.value.role == STUDENT ==>
      (v.value.deletable <==> section == ASSIGNMENTS && item.uploadedBy == user.value.id)
    ensures v.Some? && user.Some? && user.value.role != MENTOR && user.value.role != STUDENT ==>
      !v.value.deletable
  {
    if item.fileUrl == "" then None
    else
      IsPdfIffExtension(item.fileUrl);
      var pdf := IsPdf(item.fileUrl);
      Some(ItemView(SummaryKey(section, idx), item.title, pdf, section == NOTES && pdf,
                    CanDelete(user, c, section, item)))
  }

  /** The entries of one assignments list as the page renders them, each paired
      with the index its delete button sends: the position in the filtered list. */
  function AssignmentButtons(assignments: seq<FileEntry>, kind: string): (r: seq<(FileEntry, nat)>)
    ensures |r| == |Filter(HasKind(kind), assignments)|
    ensures forall i :: 0 <= i < |r| ==> r[i] == (Filter(HasKind(kind), assignments)[i], i)
  {
    var shown := Filter(HasKind(kind), assignments);
    seq(|shown|, i requires 0 <= i < |shown| => (shown[i], i))
  }

  /** With one question followed by one answer, the answer's delete button
      sends index 0, which is the question's position in the section. */
  lemma AnswerButtonAddressesQuestion(q: FileEntry, ans: FileEntry)
    requires q.kind == QUESTION && ans.kind == ANSWER
    ensures var b := AssignmentButtons([q, ans], ANSWER);
      |b| == 1 && b[0] == (ans, 0) && [q, ans][b[0].1] == q && q != ans
  {
    var s := [q, ans];
    assert Filter(HasKind(ANSWER), s[1..]) == [ans] by {
      assert s[1..][1..] == [];
    }
  }

  /** The same list with each button sending the entry's position in the whole
      section, so that every button addresses the entry it is drawn beside. */
  function AssignmentButtonsFixed(assignments: seq<FileEntry>, kind: string): (r: seq<(FileEntry, nat)>)
    ensures |r| == |Filter(HasKind(kind), assignments)|
    ensures forall i :: 0 <= i < |r| ==>
      r[i].0 == Filter(HasKind(kind), assignments)[i] && r[i].1 < |assignments| && assignments[r[i].1] == r[i].0
    ensures forall i, j :: 0 <= i < |r| && 0 <= j < |r| && r[i].1 == r[j].1 ==> i == j
  {
    var shown := Filter(HasKind(kind), assignments);
    seq(|shown|, i requires 0 <= i < |shown| => (shown[i], IndexOfNth(HasKind(kind), assignments, i)))
  }

  /** On the assignments tab the first question and the first answer are both
      rendered with index 0, so they share one per-file state key. */
  lemma QuestionAndAnswerShareKey(user: Option<Actor>, c: Course, q: FileEntry, ans: FileEntry)
    requires q.kind == QUESTION && ans.kind == ANSWER && q.fileUrl != "" && ans.fileUrl != ""
    ensures var bq := AssignmentButtons([q, ans], QUESTION);
      var ba := AssignmentButtons([q, ans], ANSWER);
      |bq| == 1 && |ba| == 1 && bq[0].0 == q && ba[0].0 == ans && q != ans
      && RenderItem(user, c, q, ASSIGNMENTS, bq[0].1).value.key
         == RenderItem(user, c, ans, ASSIGNMENTS, ba[0].1).value.key
  {
    var s := [q, ans];
    assert s[1..][1..] == [];
    assert Filter(HasKind(ANSWER), s[1..]) == [ans];
    assert Filter(HasKind(QUESTION), s[1..]) == [];
  }

  /** With the corrected indices no two rendered assignment entries share a key,
      whether they sit in the same list or one in each. */
  lemma FixedButtonKeysDistinct(assignments: seq<FileEntry>, k1: string, i: nat, k2: string, j: nat)
    requires i < |AssignmentButtonsFixed(assignments, k1)| && j < |AssignmentButtonsFixed(assignments, k2)|
    requires k1 != k2 || i != j
    ensures SummaryKey(ASSIGNMENTS, AssignmentButtonsFixed(assignments, k1)[i].1)
         != SummaryKey(ASSIGNMENTS, AssignmentButtonsFixed(assignments, k2)[j].1)
  {
    var x := AssignmentButtonsFixed(assignments, k1)[i].1;
    var y := AssignmentButtonsFixed(assignments, k2)[j].1;
    // Each index addresses an entry of its own list's type.
    assert HasKind(k1)(Filter(HasKind(k1), assignments)[i]);
    assert HasKind(k2)(Filter(HasKind(k2), assignments)[j]);
    assert x != y;
    assert '-' !in ASSIGNMENTS;
    SummaryKeyInjective(ASSIGNMENTS, x, ASSIGNMENTS, y);
  }

  /** `item.uploadedBy` as the page receives it: the stored id, or the uploader's
      `{_id, name}` document that the GET and upload replies put in its place. */
  datatype UploaderField = UploaderId(id: string) | UploaderDoc(docId: string, name: string)

  /** `uploadedBy?.toString()`: a populated document prints as "[object Object]". */
  function UploaderText(u: UploaderField): string {
    match u
    case UploaderId(id) => id
    case UploaderDoc(_, _) => "[object Object]"
  }

  /** `studentOwns` as written: the field's text compared with the user's id. */
  predicate StudentOwnsAsWritten(user: Option<Actor>, section: string, u: UploaderField) {
    section == ASSIGNMENTS && user.Some? && user.value.role == STUDENT && UploaderText(u) == user.value.id
  }

  /** Once the uploader is populated, no student owns even the answer that
      student uploaded; only the bare id would match. */
  lemma PopulatedUploaderNeverOwned(a: Actor, name: string)
    requires a.role == STUDENT && a.id != "[object Object]"
    ensures !StudentOwnsAsWritten(Some(a), ASSIGNMENTS, UploaderDoc(a.id, name))
    ensures StudentOwnsAsWritten(Some(a), ASSIGNMENTS, UploaderId(a.id))
  {
  }

  /** The id the field refers to, in either shape (`uploadedBy._id` when populated). */
  function UploaderRef(u: UploaderField): string {
    match u
    case UploaderId(id) => id
    case UploaderDoc(docId, _) => docId
  }

  /** `studentOwns` comparing the uploader's id, whichever shape the field has. */
  predicate StudentOwns(user: Option<Actor>, section: string, u: UploaderField) {
    section == ASSIGNMENTS && user.Some? && user.value.role == STUDENT && UploaderRef(u) == user.value.id
  }

  /** `CanDelete`, which reads `uploadedBy` as the stored id, is the page's rule
      with the comparison made on the uploader's id: it gives the same answer for
      the populated and the bare field, and a student owns an entry in either shape. */
  lemma CanDeleteReadsUploaderId(user: Option<Actor>, c: Course, section: string, item: FileEntry, u: UploaderField,
                                  name: string)
    requires UploaderRef(u) == item.uploadedBy
    ensures CanDelete(user, c, section, item) <==> PageIsMentor(user, c) || StudentOwns(user, section, u)
    ensures user.Some? && user.value.role == STUDENT && section == ASSIGNMENTS ==>
      StudentOwns(user, section, UploaderDoc(user.value.id, name))
      && StudentOwns(user, section, UploaderId(user.value.id))
  {
  }

  /** The client refuses a blank description, and anything it sends gets past the
      server's emptiness check; the server alone would accept a blank one. */
  lemma DescriptionGuards(d: string)
    ensures Trim(d) == [] <==> IsBlank(d)
    ensures Trim(d) != [] ==> d != ""
  {
    TrimEmptyIffBlank(d);
  }
}
