# NoteNexus course access and course content, in Dafny

NoteNexus is a small learning-management application. Mentors create courses and students join them. Both roles then exchange files through three sections of a course: syllabus, notes and assignments. Assignments hold mentor questions and student answers. This project models the rules that decide who may do what to a course, and what each request changes:

- the course content routes: view a course, upload a file to a section, edit the description;
- the course directory routes: create, join, list courses, list enrolled students;
- the in-memory note list, with its upload and per-course lookup;
- the course page's copy of the same rules: upload and delete buttons, the question/answer split, per-file summary state, and the guards that stop a request from being sent.

Layout, one module per file:

| file | module | models |
|---|---|---|
| text.dfy | Text | the string operations the routes and page rely on: JavaScript's `\s` and `trim()`, the whitespace-to-dash and backslash-to-slash rewrites, decimal timestamps, the extension after the last dot |
| seqs.dfy | Seqs | `Array.prototype.filter` and duplicate-free lists |
| model.dfy | Model | actors, file entries, courses, mentors, students, replies, and the back-reference invariant |
| access.dfy | Access | the ownership predicates and the view and upload rules |
| uploads.dfy | Uploads | storage directory, stored filename, and the fields of a new entry |
| database.dfy | Database | the Course, Mentor and Student collections as a `Store` class of maps |
| course_detail.dfy | CourseDetailRoutes | GET course, POST upload, PUT description |
| courses.dfy | CourseRoutes | create, join, list, enrolled students |
| notes.dfy | NotesRoutes | the process-wide note list (`NoteBoard`) |
| client_view.dfy | CourseDetailView | the page's pure decisions |
| client_page.dfy | CourseDetailPage | the page's state maps and handlers (`Page`) |

The database is a `Store` object whose fields are maps from document id to document. A route loads a document, changes it, and saves it back. In the model that is one update of the map entry. `Store.Valid()` holds between requests, and every route method preserves it. It says:

- each course is stored under its own id;
- each `studentsEnrolled` is duplicate-free;
- a registered mentor's `createdCourses` lists exactly the courses that mentor created, each once;
- a registered student's `joinedCourses` lists exactly the courses that student is enrolled in, each once.

Roles, section names and entry types are strings, as in the source. So "any other section" and "any other type" keep their meaning. The source's entry field `type` is called `kind` here, because `type` is a Dafny keyword. A request body field that is absent is modelled as the empty string. Both are falsy to the source's `!x` checks. Timestamps, the uploaded file's `originalname` and `path`, the fresh id the database assigns, and every server reply the page receives are method parameters.

## Model

| member | source | states |
|---|---|---|
| Access.OwnerAndStudentExclusive | Backend/routes/courseDetail.js:49-50 | the owning-mentor and enrolled-student predicates never hold together, because they need different roles |
| Access.UploadRule | Backend/routes/courseDetail.js:79-85 | for syllabus and notes, only the owning mentor gets past the upload guards; for assignments, exactly those who may view the course do |
| CourseDetailRoutes.GetCourse | Backend/routes/courseDetail.js:40-54 | an unknown id gives 404; otherwise the reply is 200 with the course exactly when the actor is the owning mentor or an enrolled student, and 403 in every other case |
| CourseDetailRoutes.UploadFile | Backend/routes/courseDetail.js:65-114 | a bad section gives 400 before the lookup; then 404 for an unknown course; then 403 with the section's message; then 400 for a missing file. Every failure leaves all courses unchanged. A success appends the derived entry to the named section of that one course and returns the updated course |
| CourseDetailRoutes.UpdateDescription | Backend/routes/courseDetail.js:125-142 | an empty description gives 400 before the lookup, an unknown course 404, a non-owner 403; a success changes only that course's description |
| Model.AppendEntry | Backend/routes/courseDetail.js:95-96 | the named section gains exactly one entry at its end; the other two sections and every other field are unchanged |
| Uploads.StorageDirBySection | Backend/routes/courseDetail.js:11-23 | assignments go to the questions directory for the mentor role and the answers directory otherwise; notes, syllabus and any other section each have their own directory |
| Uploads.StoredName | Backend/routes/courseDetail.js:28-32 | the stored filename contains no whitespace; with the two lemmas below and `Text.DashSpaceRunsJoin`, it is the decimal timestamp, a dash, and the original name with each whitespace run turned into one dash |
| Uploads.StoredNameKeepsPlainNames | Backend/routes/courseDetail.js:28-32 | a name without whitespace is stored as the decimal timestamp, a dash, and the name itself |
| Uploads.StoredNameDashesRuns | Backend/routes/courseDetail.js:30-31 | a whitespace run between two parts of the original name is stored as exactly one dash between the two parts |
| Uploads.StoredNameInjective | Backend/routes/courseDetail.js:28-32 | equal stored names come from the same timestamp and the same rewritten original name |
| Uploads.EntryTitle | Backend/routes/courseDetail.js:97 | the title is the given one when non-empty, and the original filename otherwise |
| Uploads.NewEntry | Backend/routes/courseDetail.js:92-104 | type is question exactly for the owning mentor on assignments, answer exactly for an enrolled student on assignments, and file exactly off assignments; the title is the given one or the original name; the url is the path with every backslash turned into a slash; the model tag is "Mentor" for the mentor role and "Student" for every other; uploader, role and time are the actor's and the request's |
| Uploads.StorageAgreesWithType | Backend/routes/courseDetail.js:15-16 | for every accepted assignments upload, the file lands in the questions directory exactly when its entry is a question, and in the answers directory exactly when it is an answer |
| Text.SlashNormalize | Backend/routes/courseDetail.js:98 | every backslash becomes a slash and every other character is kept in place |
| Text.SlashNormalizeRemovesBackslashes | Backend/routes/courseDetail.js:98 | the stored url has no backslash, and normalising again changes nothing |
| Text.DashSpaceRuns | Backend/routes/courseDetail.js:30 | the rewritten name has no whitespace and is no longer than the original |
| Text.DashSpaceRunsKeepsPlainNames | Backend/routes/courseDetail.js:30 | a name without whitespace is stored unchanged |
| Text.DashSpaceRunsIdempotent | Backend/routes/courseDetail.js:30 | rewriting twice gives the same name as rewriting once |
| Text.DashSpaceRunsKeepsLetters | Backend/routes/courseDetail.js:30 | every character other than whitespace and dashes survives the rewrite, in order |
| Text.DashSpaceRunsJoin | Backend/routes/courseDetail.js:30 | a maximal whitespace run between a part not ending in whitespace and a part not starting with it is replaced by exactly one dash, and each part is rewritten on its own |
| Text.Decimal | Backend/routes/courseDetail.js:29-31 | the timestamp prefix is a non-empty run of digits with no leading zero, and zero is written "0" |
| Text.DecimalRoundTrip | Backend/routes/courseDetail.js:29-31 | the timestamp prefix reads back as the timestamp |
| Text.DashJoinInjective | Backend/routes/courseDetail.js:31 | joining two parts with a dash loses nothing when the first part has no dash |
| CourseRoutes.CreateCourse | Backend/routes/courses.js:11-51 | non-mentor 403; any empty field 400; missing mentor record 404; each failure creates nothing. A success stores a course owned by the actor with the mentor's name, empty enrolment and empty sections, appends its id once to that mentor's `createdCourses`, and replies 201 |
| CourseRoutes.JoinCourse | Backend/routes/courses.js:54-79 | non-student 403; unknown course 404. An enrolled student changes nothing and still gets the success message. A first join appends the student once to `studentsEnrolled` and the course once to that student's `joinedCourses`. Afterwards the student occurs exactly once in the enrolment |
| Model.Enrolled | Backend/routes/courses.js:66-68 | the course keeps its key; the joined course is the stored one with the student appended to its roster and every other field kept; every other course is unchanged |
| Model.Joined | Backend/routes/courses.js:69-71 | a registered student becomes the stored record with the course appended to `joinedCourses` and its name kept; an unregistered id changes nothing, and every other student is unchanged |
| Model.EnrolKeepsRefsSound | Backend/routes/courses.js:65-72 | a first-time join keeps rosters duplicate-free and keeps the mentor and student back-references consistent with the courses |
| CourseRoutes.ListCourses | Backend/routes/courses.js:82-93 | every stored course is listed, none filtered, each with the selected fields |
| CourseRoutes.EnrolledStudents | Backend/routes/courses.js:94-114 | a non-mentor gets 403 even for an unknown course; then unknown course 404; a mentor who does not own it 403; the owner gets exactly `studentsEnrolled` |
| Seqs.NoDuplicatesOccursOnce | Backend/routes/courses.js:65-67 | in a duplicate-free enrolment every member occurs exactly once |
| NotesRoutes.NoteBoard.Upload | Backend/routes/notes.js:23-38 | a non-mentor gets 403 and a missing file 500, with the list unchanged; a mentor upload appends exactly one note, whose path is `/uploads/` and the stored name, and replies 201; the list only grows |
| NotesRoutes.NoteBoard.ForCourse | Backend/routes/notes.js:40-43 | the reply holds exactly the notes of the requested course, in list order |
| NotesRoutes.NotesFor | Backend/routes/notes.js:41 | a note is in the result exactly when it is in the list and has the requested course id |
| NotesRoutes.NotesForAppend | Backend/routes/notes.js:21-43 | a new note appears last in its own course's lookup and changes no other course's lookup |
| NotesRoutes.NoteFilePathParts | Backend/routes/notes.js:14-16 | equal note paths come from the same timestamp and the same original name |
| Seqs.Filter | Backend/routes/notes.js:41 | the result keeps exactly the elements that satisfy the predicate, and is no longer than the input |
| Seqs.FilterAppend | src/Pages/CourseDetail.jsx:260-263 | filtering keeps relative order: the filter of a concatenation is the concatenation of the filters |
| CourseDetailView.CanUploadMatchesServer | src/Pages/CourseDetail.jsx:36-47 | the page's ownership predicates equal the server's, and the page offers an upload exactly when the server's section check and upload guards would pass |
| CourseDetailView.CanDeleteRule | src/Pages/CourseDetail.jsx:184-188 | with `uploadedBy` read as the uploader's id: off assignments only the owning mentor may delete; a student may delete exactly the assignment entries that name that student as uploader; nobody logged in may delete nothing |
| CourseDetailView.UploaderMayDelete | src/Pages/CourseDetail.jsx:184-188 | with `uploadedBy` read as the uploader's id, the page offers deletion of an assignment entry to the person whose upload the server accepted; the populated field the page actually receives breaks this, see the second finding |
| CourseDetailView.QuestionsAnswersPartition | src/Pages/CourseDetail.jsx:260-263 | questions are exactly the question entries and answers exactly the answer entries; no entry is in both, entries of any other type are in neither, and together they are no more than the section |
| CourseDetailView.UploadExtendsAssignmentsView | src/Pages/CourseDetail.jsx:260-263 | after an accepted assignments upload, the owner's entry is the last question and a student's the last answer; the other list is unchanged |
| CourseDetailView.SummaryKeyInjective | src/Pages/CourseDetail.jsx:190 | over dash-free section names, equal keys come from the same (section, index) pair; it says nothing about two items rendered with the same index, which the third finding shows do occur |
| CourseDetailView.IsPdfIffExtension | src/Pages/CourseDetail.jsx:181-191 | a url is a PDF exactly when its last three characters spell pdf in any case and either are the whole url or follow a dot |
| CourseDetailView.RenderItem | src/Pages/CourseDetail.jsx:179-191 | an item without a url renders nothing; a rendered item is a PDF exactly when its url ends in "pdf" in any case that is the whole url or follows a dot, offers a summary exactly for a notes PDF, and offers deletion to the owning mentor on every section, to a student exactly on an assignment entry naming that student as uploader, and to nobody else |
| CourseDetailView.AssignmentButtons | src/Pages/CourseDetail.jsx:269-270 | each rendered question or answer is paired with its position in the filtered list, which its delete button sends |
| CourseDetailView.AnswerButtonAddressesQuestion | src/Pages/CourseDetail.jsx:296-297 | with one question followed by one answer, the answer's delete button sends 0, the position of the question in the section |
| CourseDetailView.AssignmentButtonsFixed | src/Pages/CourseDetail.jsx:269-270 | with each button sending the entry's position in the whole section, every button addresses the entry drawn beside it, and no two buttons of a list send the same index |
| CourseDetailView.QuestionAndAnswerShareKey | src/Pages/CourseDetail.jsx:190 | the first question and the first answer are both rendered with index 0 and so get the same summary key |
| CourseDetailView.FixedButtonKeysDistinct | src/Pages/CourseDetail.jsx:190 | with positions in the whole section as indices, no two rendered assignment entries share a summary key, within a list or across the two lists |
| CourseDetailView.PopulatedUploaderNeverOwned | src/Pages/CourseDetail.jsx:184-188 | once `uploadedBy` is the populated document, its text is "[object Object]", so no student owns even their own answer; only a bare id would match |
| CourseDetailView.CanDeleteReadsUploaderId | src/Pages/CourseDetail.jsx:184-188 | `CanDelete` equals the page's rule with the comparison made on the uploader's id, and a student owns an entry in either shape of the field |
| Seqs.IndexOfNth | src/Pages/CourseDetail.jsx:260-263 | the k-th element a filter keeps sits at an index where that element is, with exactly k kept elements before it |
| CourseDetailView.DescriptionGuards | src/Pages/CourseDetail.jsx:81 | a description trims to nothing exactly when it is all whitespace, and anything the page sends passes the server's emptiness check |
| Text.TrimEmptyIffBlank | src/Pages/CourseDetail.jsx:81 | `trim()` gives the empty string exactly for all-whitespace input |
| CourseDetailPage.Page.DeleteFile | src/Pages/CourseDetail.jsx:49-74 | nothing is sent unless confirmed; a failed delete changes nothing; a successful one stores the returned course and drops the item's key from the summary, loading and error maps, leaving every other key as it was |
| CourseDetailPage.Page.BeginSummarize | src/Pages/CourseDetail.jsx:137-152 | a request is sent exactly when the key is not already loading; afterwards the key is loading either way, so a second click before the reply sends nothing; a sent request clears the key's old summary and error and leaves other keys unchanged |
| CourseDetailPage.Page.FinishSummarize | src/Pages/CourseDetail.jsx:154-175 | the reply stores the summary, a failure stores the failure message, and the key stops loading; after a request that cleared both, the key holds exactly one of the two |
| CourseDetailPage.Page.Upload | src/Pages/CourseDetail.jsx:106-134 | no request without a selected file; the request carries the file and its name as title; a success stores the returned course and clears the selection |
| CourseDetailPage.Page.SaveDescription | src/Pages/CourseDetail.jsx:80-100 | a description that is all whitespace is never sent; a sent one is non-empty; a success stores the returned course and leaves edit mode |

## Findings

| source | as written | input that shows it | evidently intended | confidence | as-written member | corrected member |
|---|---|---|---|---|---|---|
| src/Pages/CourseDetail.jsx:270 | the delete button of an assignment sends the item's position in the filtered question or answer list | assignments = [a question, an answer]: the answer's button sends index 0, the question's position | the entry's position in `course.assignments`, the index by which a course's section is addressed | medium; not executed; the server's delete handler is not part of this model | CourseDetailView.AnswerButtonAddressesQuestion | CourseDetailView.AssignmentButtonsFixed |
| src/Pages/CourseDetail.jsx:187 | `studentOwns` compares `item.uploadedBy?.toString()` with the user's id, but the GET and upload replies (Backend/routes/courseDetail.js:42-45, 109-112) replace `uploadedBy` with the `{_id, name}` document | a student uploads an answer and reloads the page: the field's text is "[object Object]", so the student gets no delete button on their own answer | compare `uploadedBy._id` (or the bare id) with the user's id | medium; not executed; assumes the uploader is found by population | CourseDetailView.PopulatedUploaderNeverOwned | CourseDetailView.CanDeleteReadsUploaderId |
| src/Pages/CourseDetail.jsx:190 | the per-file state key is built from the index in the filtered question or answer list | assignments = [a question, an answer]: both are rendered with index 0 and share the key `assignments-0`, so the per-file keying announced at line 13 does not hold. Nothing visible goes wrong today: only notes items offer a summary (lines 207-209), so no `assignments-*` key is ever written | a key built from the entry's position in `course.assignments`, unique per entry | low; not executed; latent until summaries are offered outside notes | CourseDetailView.QuestionAndAnswerShareKey | CourseDetailView.FixedButtonKeysDistinct |

## Left out

- Disk side effects of the upload middleware: directory creation, the file write, and the fact that it runs before the section check. Only the directory and filename choice are modelled.
- The auth middleware. The actor is a parameter. Unauthenticated requests never reach these routes.
- Reference population for display: uploader names in GET and upload replies, and student names and emails in the enrolled-students reply. Replies carry the stored ids.
- `CanDelete`, and so `RenderItem`, read `uploadedBy` as the uploader's id, which is the corrected comparison of the second finding. As written, the page receives the populated document and no student is offered deletion of their own entries; `PopulatedUploaderNeverOwned` states that case.
- Failures of the database or the file system (the 500 replies of the `catch` blocks), and crashes between the two writes of create and join. The model performs those writes one after the other.
- Concurrency between requests on the same course. Each route runs to completion.
- The server-side delete-by-index and summarize routes. The page calls them, but no handler for them exists in these routes. Only the page's side is modelled.
- The `uploading` flag of the page, which is set and cleared around each upload. It only disables the button.
- JSX rendering beyond `RenderItem`, `fetch`, `localStorage`, `window.confirm` and `alert`. Confirmation and replies are parameters.
- Account registration and login. The `Store` constructor takes the registered mentors and students.
- Text.LowerChar: lowercases ASCII letters only, where JavaScript lowercases all of Unicode. No other character lowers to `p`, `d` or `f`, so the PDF test is unaffected.
- `uploadedAt` ordering across uploads: the clock is a parameter, so nothing is claimed about successive timestamps.
- Course listing order: `ListCourses` returns a map keyed by id. The database's result order is not modelled.
- The Course schema file declares no section fields. Entry fields are taken from the upload route. Passwords and emails are left out.
