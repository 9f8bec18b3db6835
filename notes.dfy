/** The process-wide note list of Backend/routes/notes.js: a mentor-only upload
    appends to it, and a lookup filters it by course id. Nothing removes or
    edits a note. */
module NotesRoutes {
  import opened Text
  import opened Seqs
  import opened Model

  const UNAUTHORIZED := "Unauthorized"
  /** Reading `file.filename` with no file throws; Express answers 500. */
  const SERVER_ERROR := "Internal Server Error"

  datatype Note = Note(id: nat, title: string, filePath: string, courseId: string)

  /** The `filename` callback of this router: `<timestamp>-<originalname>`. */
  function NoteFileName(timestamp: nat, originalname: string): string {
    Decimal(timestamp) + "-" + originalname
  }

  /** `notes.filter(n => n.courseId === courseId)` */
  function NotesFor(notes: seq<Note>, courseId: string): (r: seq<Note>)
    ensures forall n :: n in r <==> n in notes && n.courseId == courseId
    ensures |r| <= |notes|
  {
    Filter((n: Note) => n.courseId == courseId, notes)
  }

  /** A new note shows up last in its own course's list and in no other. */
  lemma NotesForAppend(notes: seq<Note>, n: Note, courseId: string)
    ensures NotesFor(notes + [n], courseId) ==
      if n.courseId == courseId then NotesFor(notes, courseId) + [n] else NotesFor(notes, courseId)
  {
    FilterAppend((x: Note) => x.courseId == courseId, notes, [n]);
  }

  /** The stored path names the upload time and the original name, and the
      time can be read back from it. */
  lemma NoteFilePathParts(t1: nat, n1: string, t2: nat, n2: string)
    requires "/uploads/" + NoteFileName(t1, n1) == "/uploads/" + NoteFileName(t2, n2)
    ensures t1 == t2 && n1 == n2
  {
    var p := "/uploads/";
    assert NoteFileName(t1, n1) == (p + NoteFileName(t1, n1))[|p|..];
    DecimalHasNoDash(t1);
    DecimalHasNoDash(t2);
    DashJoinInjective(Decimal(t1), n1, Decimal(t2), n2);
    DecimalInjective(t1, t2);
  }

  class NoteBoard {
    var notes: seq<Note>

    constructor ()
      ensures notes == []
    {
      notes := [];
    }

    /** POST /upload. `storedAt` is the time the upload middleware named the
        file with, `now` the time the note's id is taken from. */
    method Upload(a: Actor, courseId: string, title: string, file: Option<UploadedFile>,
                  storedAt: nat, now: nat) returns (r: Reply<Note>)
      modifies this
      ensures old(notes) <= notes
      ensures a.role != MENTOR ==> r == Fail(403, UNAUTHORIZED)
      ensures a.role == MENTOR && file.None? ==> r == Fail(500, SERVER_ERROR)
      ensures r.Fail? ==> notes == old(notes)
      ensures r.Ok? <==> a.role == MENTOR && file.Some?
      ensures r.Ok? ==>
        r.status == 201
        && r.body == Note(now, title, "/uploads/" + NoteFileName(storedAt, file.value.originalname), courseId)
        && notes == old(notes) + [r.body]
    {
      if a.role != MENTOR {
        return Fail(403, UNAUTHORIZED);
      }
      if file.None? {
        return Fail(500, SERVER_ERROR);
      }
      var note := Note(now, title, "/uploads/" + NoteFileName(storedAt, file.value.originalname), courseId);
      notes := notes + [note];
      return Ok(201, note);
    }

    /** GET /:courseId */
    method ForCourse(courseId: string) returns (r: seq<Note>)
      ensures forall n :: n in r <==> n in notes && n.courseId == courseId
      ensures r == NotesFor(notes, courseId)
    {
      r := NotesFor(notes, courseId);
    }
  }
}
