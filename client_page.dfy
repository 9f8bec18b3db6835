/** The component state of the course page (src/Pages/CourseDetail.jsx) and the
    handlers that change it. Each server reply is a parameter: `None` stands for
    a failed request, `Some(x)` for a successful one carrying `x`. */
module CourseDetailPage {
  import opened Text
  import opened Model
  import opened CourseDetailView

  const SUMMARY_FAILED := "Failed to summarize this file."

  /** The file chosen in a file input (`e.target.files[0]`). */
  datatype SelectedFile = SelectedFile(name: string)

  /** The multipart form `handleUpload` posts. */
  datatype UploadRequest = UploadRequest(section: string, file: SelectedFile, title: string)

  class Page {
    var course: Option<Course>
    var file: Option<SelectedFile>
    var newDescription: string
    var editingDesc: bool
    /** `fileSummaries`, `fileSummaryLoading`, `fileSummaryError`, keyed by `SummaryKey`. */
    var summaries: map<string, string>
    var summaryLoading: map<string, bool>
    var summaryErrors: map<string, string>

    constructor ()
      ensures course.None? && file.None? && newDescription == "" && !editingDesc
      ensures summaries == map[] && summaryLoading == map[] && summaryErrors == map[]
    {
      course := None;
      file := None;
      newDescription := "";
      editingDesc := false;
      summaries := map[];
      summaryLoading := map[];
      summaryErrors := map[];
    }

    /** `handleDeleteFile`: nothing is sent unless the user confirms; after a
        successful delete the item's key is dropped from all three maps. */
    method DeleteFile(section: string, index: nat, confirmed: bool, reply: Option<Course>) returns (sent: bool)
      modifies this
      ensures sent == confirmed
      ensures file == old(file) && newDescription == old(newDescription) && editingDesc == old(editingDesc)
      ensures !(confirmed && reply.Some?) ==>
        course == old(course) && summaries == old(summaries)
        && summaryLoading == old(summaryLoading) && summaryErrors == old(summaryErrors)
      ensures confirmed && reply.Some? ==>
        var key := SummaryKey(section, index);
        course == reply
        && summaries == old(summaries) - {key}
        && summaryLoading == old(summaryLoading) - {key}
        && summaryErrors == old(summaryErrors) - {key}
    {
      if !confirmed {
        return false;
      }
      sent := true;
      if reply.None? {
        return;
      }
      course := reply;
      var key := SummaryKey(section, index);
      summaries := summaries - {key};
      summaryLoading := summaryLoading - {key};
      summaryErrors := summaryErrors - {key};
    }

    /** A summary request for `key` is in flight. */
    predicate Summarizing(key: string)
      reads this
    {
      key in summaryLoading && summaryLoading[key]
    }

    /** The synchronous part of `handleSummarizeFile`, up to the `fetch`: ignored
        while a request for the same key is in flight; otherwise the key is
        marked loading and its old summary and error are cleared. Either way the
        key is in flight afterwards, so a second click before the reply arrives
        sends nothing. */
    method BeginSummarize(section: string, index: nat) returns (sent: bool)
      modifies this
      ensures course == old(course) && file == old(file)
      ensures newDescription == old(newDescription) && editingDesc == old(editingDesc)
      ensures sent <==> !old(Summarizing(SummaryKey(section, index)))
      ensures Summarizing(SummaryKey(section, index))
      ensures !sent ==>
        summaries == old(summaries) && summaryLoading == old(summaryLoading) && summaryErrors == old(summaryErrors)
      ensures sent ==>
        var key := SummaryKey(section, index);
        summaryLoading == old(summaryLoading)[key := true]
        && summaries == old(summaries) - {key} && summaryErrors == old(summaryErrors) - {key}
    {
      var key := SummaryKey(section, index);
      if key in summaryLoading && summaryLoading[key] {
        return false;
      }
      sent := true;
      summaryLoading := summaryLoading[key := true];
      summaries := summaries - {key};
      summaryErrors := summaryErrors - {key};
    }

    /** The rest of `handleSummarizeFile`, once the reply is in: the summary or
        the failure message is recorded and the key stops loading. After a
        `BeginSummarize` that sent, the key holds exactly one of the two. */
    method FinishSummarize(section: string, index: nat, reply: Option<string>)
      modifies this
      ensures course == old(course) && file == old(file)
      ensures newDescription == old(newDescription) && editingDesc == old(editingDesc)
      ensures !Summarizing(SummaryKey(section, index))
      ensures var key := SummaryKey(section, index);
        summaryLoading == old(summaryLoading)[key := false]
        && (reply.Some? ==> summaries == old(summaries)[key := reply.value] && summaryErrors == old(summaryErrors))
        && (reply.None? ==> summaries == old(summaries) && summaryErrors == old(summaryErrors)[key := SUMMARY_FAILED])
      ensures var key := SummaryKey(section, index);
        old(key !in summaries && key !in summaryErrors) ==> (key in summaries) != (key in summaryErrors)
    {
      var key := SummaryKey(section, index);
      if reply.Some? {
        summaries := summaries[key := reply.value];
      } else {
        summaryErrors := summaryErrors[key := SUMMARY_FAILED];
      }
      summaryLoading := summaryLoading[key := false];
    }

    /** `handleUpload`: no request without a selected file; the title sent is
        the file's own name. */
    method Upload(section: string, reply: Option<Course>) returns (req: Option<UploadRequest>)
      modifies this
      ensures newDescription == old(newDescription) && editingDesc == old(editingDesc)
      ensures summaries == old(summaries) && summaryLoading == old(summaryLoading) && summaryErrors == old(summaryErrors)
      ensures old(file).None? ==> req.None? && course == old(course) && file == old(file)
      ensures old(file).Some? ==> req == Some(UploadRequest(section, old(file).value, old(file).value.name))
      ensures old(file).Some? && reply.Some? ==> course == reply && file.None?
      ensures old(file).Some? && reply.None? ==> course == old(course) && file == old(file)
    {
      if file.None? {
        return None;
      }
      req := Some(UploadRequest(section, file.value, file.value.name));
      if reply.Some? {
        course := reply;
        file := None;
      }
    }

    /** `handleDescriptionSave`: a description that trims to nothing is never sent. */
    method SaveDescription(reply: Option<Course>) returns (req: Option<string>)
      modifies this
      ensures file == old(file) && newDescription == old(newDescription)
      ensures summaries == old(summaries) && summaryLoading == old(summaryLoading) && summaryErrors == old(summaryErrors)
      ensures IsBlank(newDescription) ==> req.None? && course == old(course) && editingDesc == old(editingDesc)
      ensures !IsBlank(newDescription) ==> req == Some(newDescription) && newDescription != ""
      ensures !IsBlank(newDescription) && reply.Some? ==> course == reply && !editingDesc
      ensures !IsBlank(newDescription) && reply.None? ==> course == old(course) && editingDesc == old(editingDesc)
    {
      DescriptionGuards(newDescription);
      if Trim(newDescription) == [] {
        return None;
      }
      req := Some(newDescription);
      if reply.Some? {
        course := reply;
        editingDesc := false;
      }
    }
  }
}
