/** The note-creation validator: a bounded title, a body, and attachments
    restricted to an image/video/audio MIME allow-list and a 25 MiB ceiling. */
module NoteValidators {
  import opened Types

  /** Every content type an attachment may declare. */
  const AcceptedContentTypes: seq<string> := [
    // images
    "image/jpeg", "image/png", "image/webp", "image/gif", "image/bmp", "image/svg+xml",
    // videos
    "video/mp4", "video/webm", "video/ogg", "video/3gpp", "video/3gpp2",
    "video/x-msvideo", "video/x-matroska", "video/quicktime",
    // audio
    "audio/mpeg", "audio/ogg", "audio/wav", "audio/webm", "audio/aac",
    "audio/mp4", "audio/3gpp", "audio/3gpp2", "audio/x-ms-wma"
  ]

  const MaxTitleLength := 300
  const MaxAttachmentBytes := 25 * 1024 * 1024

  const FileTypeMessage := "Not a valid file type."
  const FileSizeMessage := "Image too large, max 25MB."
  const NotAStringMessage := "Input should be a valid string"
  const TitleTooLongMessage := "String should have at most 300 characters"

  /** The outcome of a field validator: the value it returns, or the message
      of the ValueError it raises. */
  datatype Checked<+T> = Pass(value: T) | Reject(msg: string)

  /** The checks `validate_files` makes on one file, content type first. */
  function FileError(f: UploadedFile): (e: Option<string>)
    ensures e.None? <==> f.contentType in AcceptedContentTypes && f.size <= MaxAttachmentBytes
    ensures f.contentType !in AcceptedContentTypes ==> e == Some(FileTypeMessage)
    ensures f.contentType in AcceptedContentTypes && f.size > MaxAttachmentBytes ==> e == Some(FileSizeMessage)
  {
    if f.contentType !in AcceptedContentTypes then Some(FileTypeMessage)
    else if f.size > MaxAttachmentBytes then Some(FileSizeMessage)
    else None
  }

  /** `validate_files`: the files are checked in order, the first failing
      file decides the error, and on success the list comes back unchanged. */
  function ValidateFiles(files: seq<UploadedFile>): (r: Checked<seq<UploadedFile>>)
    ensures r.Pass? <==> forall i :: 0 <= i < |files| ==> FileError(files[i]).None?
    ensures r.Pass? ==> r.value == files
    ensures r.Reject? ==> exists i :: 0 <= i < |files| && FileError(files[i]) == Some(r.msg) &&
                           forall j :: 0 <= j < i ==> FileError(files[j]).None?
  {
    if |files| == 0 then
      Pass(files)
    else
      match FileError(files[0])
      case Some(m) =>
        Reject(m)
      case None =>
        match ValidateFiles(files[1..])
        case Pass(_) => Pass(files)
        case Reject(m) =>
          assert forall j :: 0 < j < |files| ==> files[j] == files[1..][j - 1];
          Reject(m)
  }

  /** The fields of a note-creation request as the validator returns them. */
  datatype NoteFields = NoteFields(title: string, note: string, files: seq<UploadedFile>, collaborators: Option<seq<UserId>>)

  function TitleIssues(title: Option<string>): seq<Issue> {
    match title
    case None => [Issue("title", NotAStringMessage)]
    case Some(t) => if |t| > MaxTitleLength then [Issue("title", TitleTooLongMessage)] else []
  }

  function NoteIssues(note: Option<string>): seq<Issue> {
    if note.None? then [Issue("note", NotAStringMessage)] else []
  }

  function FileIssues(files: seq<UploadedFile>): seq<Issue> {
    match ValidateFiles(files)
    case Pass(_) => []
    case Reject(m) => [Issue("files", m)]
  }

  /** `CreateNoteValidator(**data)`: the title must be a string of at most 300
      characters and the note a string; the files pass `validate_files`; the
      collaborator ids are optional (None when absent) and pass through as
      given. Every failing field is reported, in declaration order. */
  function ValidateCreateNote(title: Option<string>, note: Option<string>, files: seq<UploadedFile>,
                              collaborators: Option<seq<UserId>>): (r: Validation<NoteFields>)
    ensures !r.Raised?
    ensures r.Valid? <==> title.Some? && |title.value| <= MaxTitleLength && note.Some? && ValidateFiles(files).Pass?
    ensures r.Valid? ==> r.value == NoteFields(title.value, note.value, files, collaborators)
    ensures title.Some? && |title.value| > MaxTitleLength ==> r.Invalid? && |r.issues| > 0 && r.issues[0] == Issue("title", TitleTooLongMessage)
    ensures ValidateFiles(files).Reject? ==> r.Invalid? && Issue("files", ValidateFiles(files).msg) in r.issues
    ensures r.Invalid? ==> forall k :: 0 <= k < |r.issues| ==> r.issues[k].field in ["title", "note", "files"]
  {
    var issues := TitleIssues(title) + NoteIssues(note) + FileIssues(files);
    if issues == [] then
      Valid(NoteFields(title.value, note.value, files, collaborators))
    else
      Invalid(issues)
  }

  /** The size ceiling is inclusive: 26,214,400 bytes pass, one more byte does not. */
  lemma AttachmentSizeBoundary(name: string, contentType: string)
    requires contentType in AcceptedContentTypes
    ensures FileError(UploadedFile(name, contentType, 26214400)).None?
    ensures FileError(UploadedFile(name, contentType, 26214401)) == Some(FileSizeMessage)
  {
  }

  /** An empty list of attachments is always accepted. */
  lemma NoFilesAccepted()
    ensures ValidateFiles([]) == Pass([])
  {
  }
}
