/**
 * The admin upload panel (app/components/admin/PDFUpload.tsx): the state of
 * the form, what choosing a file does to it, and what submitting it sends and
 * leaves behind.
 *
 * The panel's state hooks are the fields of `UploadPanel`; each handler is a
 * method proved against a function on `PanelState`. The page count pdf-lib
 * reads from a chosen PDF, and the answer of the upload request, are
 * parameters.
 */
module PdfUploadForm {
  import opened Wrappers
  import opened JsStrings
  import R2Storage
  import PdfUploadRoute

  /** `SUPPORTED_MIME_TYPES` */
  const SupportedMimeTypes: seq<string> := [
    "application/pdf",
    "application/vnd.ms-powerpoint",
    "application/vnd.openxmlformats-officedocument.presentationml.presentation",
    "application/msword",
    "application/vnd.openxmlformats-officedocument.wordprocessingml.document",
    "application/vnd.ms-excel",
    "application/vnd.openxmlformats-officedocument.spreadsheetml.sheet"
  ]

  const PdfMimeType: string := "application/pdf"

  /** `SUPPORTED_MIME_TYPES.includes(selectedFile.type)` */
  predicate SupportedMime(mimeType: string) {
    mimeType in SupportedMimeTypes
  }
  /** `50 * 1024 * 1024` */
  const MaxFileBytes: nat := 50 * 1024 * 1024

  const UnsupportedText: string := "Please select a supported file (PDF, PPT, PPTX, DOC, DOCX, XLS, XLSX)"
  const TooLargeText: string := "File size must be less than 50MB"
  const NoFileText: string := "Please select a file"
  const SuccessText: string := "File uploaded successfully!"
  const UploadFailedText: string := "Upload failed"
  const InvalidResponseText: string := "Server returned an invalid response. Please check the server logs."
  const FailedUploadText: string := "Failed to upload file"

  /** A chosen file, as the browser describes it. */
  datatype ChosenFile = ChosenFile(name: string, mimeType: string, size: nat)

  datatype Message = Success(text: string) | Failure(text: string)

  /** The panel's state hooks. */
  datatype PanelState = PanelState(
    file: Option<ChosenFile>,
    title: string, description: string, price: string, pages: string, topics: string,
    uploading: bool,
    message: Option<Message>)

  /** The state on first render. */
  const InitialState: PanelState := PanelState(None, "", "", "", "", "", false, None)

  /** What the upload request yields: a JSON body, a body of another content type, or a thrown value
      (with its message when it is an `Error`). */
  datatype UploadAnswer = JsonBody(success: bool, error: Option<string>) | NotJson | Threw(message: Option<string>)

  /** The form data sent to the upload route. */
  datatype Submission = Submission(file: ChosenFile, title: string, description: string, price: string, pages: string, topics: string)

  /** The state after a submit, what was sent, and whether the list refresh callback ran. */
  datatype SubmitOutcome = SubmitOutcome(state: PanelState, sent: Option<Submission>, refreshed: bool)

  // ------------------------------------------------------------------ the file name's stem

  /** `name.replace(/\.[^/.]+$/, '')`: the last dot and what follows it are dropped when what follows is
      non-empty and holds no `/`; otherwise the name is kept. */
  function TitleStem(name: string): (stem: string)
    ensures |stem| <= |name| && stem == name[..|stem|]
  {
    var ext := LastSegment(name, '.');
    if '.' in name && ext != "" && '/' !in ext then
      assert LastIndex(name, '.') >= 0;
      name[..|name| - |ext| - 1]
    else name
  }

  // ------------------------------------------------------------------ handlers on values

  /** `handleFileChange`. `pageCount` is what pdf-lib reads from a PDF, `None` when it fails. */
  function AfterFileChange(s: PanelState, chosen: Option<ChosenFile>, pageCount: Option<nat>): PanelState {
    if chosen.None? then s
    else
      var f := chosen.value;
      if !SupportedMime(f.mimeType) then s.(message := Some(Failure(UnsupportedText)))
      else if f.size > MaxFileBytes then s.(message := Some(Failure(TooLargeText)))
      else
        s.(file := Some(f),
           message := None,
           title := if s.title == "" then TitleStem(f.name) else s.title,
           pages := if f.mimeType == PdfMimeType && pageCount.Some? then Decimal(pageCount.value) else "")
  }

  /** The form data of a submit: the title falls back to the file name. */
  function SubmissionOf(s: PanelState): Submission
    requires s.file.Some?
  {
    Submission(s.file.value, if s.title == "" then s.file.value.name else s.title, s.description, s.price, s.pages, s.topics)
  }

  /** `handleSubmit`: nothing is sent without a file; otherwise the form is sent, a success resets every
      field, and any failure leaves the fields as they were with a message. */
  function AfterSubmit(s: PanelState, answer: UploadAnswer): SubmitOutcome {
    if s.file.None? then SubmitOutcome(s.(message := Some(Failure(NoFileText))), None, false)
    else
      var sent := Some(SubmissionOf(s));
      match answer
      case JsonBody(success, error) =>
        if success then SubmitOutcome(InitialState.(message := Some(Success(SuccessText))), sent, true)
        else SubmitOutcome(s.(uploading := false, message := Some(Failure(Or(error, UploadFailedText)))), sent, false)
      case NotJson => SubmitOutcome(s.(uploading := false, message := Some(Failure(InvalidResponseText))), sent, false)
      case Threw(m) => SubmitOutcome(s.(uploading := false, message := Some(Failure(m.GetOr(FailedUploadText)))), sent, false)
  }

  /** `disabled={!file || uploading}` */
  predicate CanSubmit(s: PanelState) {
    s.file.Some? && !s.uploading
  }

  // ------------------------------------------------------------------ the panel

  class UploadPanel {
    var file: Option<ChosenFile>
    var title: string
    var description: string
    var price: string
    var pages: string
    var topics: string
    var uploading: bool
    var message: Option<Message>

    function State(): PanelState
      reads this
    {
      PanelState(file, title, description, price, pages, topics, uploading, message)
    }

    constructor ()
      ensures State() == InitialState
    {
      file, title, description, price, pages, topics := None, "", "", "", "", "";
      uploading, message := false, None;
    }

    method HandleFileChange(chosen: Option<ChosenFile>, pageCount: Option<nat>)
      modifies this
      ensures State() == AfterFileChange(old(State()), chosen, pageCount)
    {
      if chosen.None? {
        return;
      }
      var f := chosen.value;
      if !SupportedMime(f.mimeType) {
        message := Some(Failure(UnsupportedText));
        return;
      }
      if f.size > MaxFileBytes {
        message := Some(Failure(TooLargeText));
        return;
      }
      file := Some(f);
      message := None;
      if title == "" {
        title := TitleStem(f.name);
      }
      if f.mimeType == PdfMimeType && pageCount.Some? {
        pages := Decimal(pageCount.value);
      } else {
        pages := "";
      }
    }

    method HandleSubmit(answer: UploadAnswer) returns (sent: Option<Submission>, refreshed: bool)
      modifies this
      ensures SubmitOutcome(State(), sent, refreshed) == AfterSubmit(old(State()), answer)
    {
      if file.None? {
        message := Some(Failure(NoFileText));
        return None, false;
      }
      uploading := true;
      message := None;
      sent := Some(Submission(file.value, if title == "" then file.value.name else title, description, price, pages, topics));
      refreshed := false;
      match answer {
        case JsonBody(success, error) =>
          if success {
            message := Some(Success(SuccessText));
            file, title, description, price, pages, topics := None, "", "", "", "", "";
            refreshed := true;
          } else {
            message := Some(Failure(Or(error, UploadFailedText)));
          }
        case NotJson =>
          message := Some(Failure(InvalidResponseText));
        case Threw(m) =>
          message := Some(Failure(m.GetOr(FailedUploadText)));
      }
      uploading := false;
    }
  }

  // ------------------------------------------------------------------ properties

  /** The panel accepts the seven types of the route's intended check, and the same sizes. The route as
      written accepts strictly more: every type the panel takes, and also `constructor`. */
  lemma PanelChecksMatchRoute(mimeType: string)
    ensures SupportedMime(mimeType) <==> PdfUploadRoute.TypeAccepted(mimeType)
    ensures SupportedMime(mimeType) ==> PdfUploadRoute.TypeAcceptedAsWritten(mimeType)
    ensures !SupportedMime("constructor") && PdfUploadRoute.TypeAcceptedAsWritten("constructor")
    ensures MaxFileBytes == PdfUploadRoute.MaxUploadBytes
  {
    PdfUploadRoute.ConstructorTypePassesAsWritten();
    assert forall i :: 0 <= i < 7 ==> SupportedMimeTypes[i] == R2Storage.SupportedFileTypes[i].0;
  }

  /** A refused file is not chosen: the state is the same but for an error message, the type check
      coming first. */
  lemma RefusedFileNotChosen(s: PanelState, f: ChosenFile, pageCount: Option<nat>)
    requires !SupportedMime(f.mimeType) || f.size > MaxFileBytes
    ensures var t := AfterFileChange(s, Some(f), pageCount);
      && t.file == s.file && t.title == s.title && t.pages == s.pages
      && t.message.Some? && t.message.value.Failure?
      && t.message.value.text == (if !SupportedMime(f.mimeType) then UnsupportedText else TooLargeText)
  {
  }

  /** Exactly 50 MiB is accepted; choosing an accepted file selects it and clears the message, fills an
      empty title from the name's stem and keeps a typed one, and keeps a page count only for a PDF
      pdf-lib could read. */
  lemma AcceptedFileChosen(s: PanelState, f: ChosenFile, pageCount: Option<nat>)
    requires SupportedMime(f.mimeType) && f.size <= MaxFileBytes
    ensures var t := AfterFileChange(s, Some(f), pageCount);
      && t.file == Some(f) && t.message.None?
      && (s.title == "" ==> t.title == TitleStem(f.name))
      && (s.title != "" ==> t.title == s.title)
      && (t.pages != "" <==> f.mimeType == PdfMimeType && pageCount.Some?)
      && (t.pages != "" ==> t.pages == Decimal(pageCount.value))
      && t.description == s.description && t.price == s.price && t.topics == s.topics
  {
  }

  /** The stem of a name with an extension is the name without it. */
  lemma StemDropsExtension(base: string, ext: string)
    requires ext != "" && '.' !in ext && '/' !in ext
    ensures TitleStem(base + "." + ext) == base
  {
    var name := base + "." + ext;
    assert name == base + ['.'] + ext;
    LastSegmentAfter(base, '.', ext);
    assert name[|base|] == '.';
    assert name[..|base|] == base;
  }

  /** A name whose last dot is followed by nothing, or by a path, keeps its dot. */
  lemma StemKeepsTrailingDot(base: string)
    ensures TitleStem(base + ".") == base + "."
  {
    var name := base + ".";
    assert name == base + ['.'] + "";
    LastSegmentAfter(base, '.', "");
  }

  /** Without a chosen file the submit sends nothing and only reports it. */
  lemma NoFileSendsNothing(s: PanelState, answer: UploadAnswer)
    requires s.file.None?
    ensures AfterSubmit(s, answer) == SubmitOutcome(s.(message := Some(Failure(NoFileText))), None, false)
  {
  }

  /** A submit with a file sends it with the title or, when that is empty, the file name. A success
      resets the panel to its first state with a success message and refreshes the list; otherwise
      every field stays and the message is an error. Either way the panel is no longer uploading. */
  lemma SubmitResetsOnlyOnSuccess(s: PanelState, answer: UploadAnswer)
    requires s.file.Some?
    ensures var out := AfterSubmit(s, answer);
      && out.sent == Some(SubmissionOf(s))
      && (out.sent.value.title != "" || s.file.value.name == "")
    ensures var out := AfterSubmit(s, answer);
      && !out.state.uploading
      && (out.refreshed <==> answer.JsonBody? && answer.success)
      && (out.refreshed ==> out.state == InitialState.(message := Some(Success(SuccessText))))
      && (!out.refreshed ==>
            && out.state == s.(uploading := false, message := out.state.message)
            && out.state.message.Some? && out.state.message.value.Failure?)
  {
  }

  /** The panel's checks on a file: one of the seven types, at most 50 MiB. */
  predicate Acceptable(f: ChosenFile) {
    SupportedMime(f.mimeType) && f.size <= MaxFileBytes
  }

  /** The panel only ever holds a file that passed its checks. */
  predicate HoldsCheckedFile(s: PanelState) {
    s.file.Some? ==> Acceptable(s.file.value)
  }

  /** The panel starts with no file, and neither choosing a file nor submitting makes it hold one that
      failed the checks. */
  lemma OnlyCheckedFilesHeld(s: PanelState, chosen: Option<ChosenFile>, pageCount: Option<nat>, answer: UploadAnswer)
    requires HoldsCheckedFile(s)
    ensures HoldsCheckedFile(InitialState)
    ensures HoldsCheckedFile(AfterFileChange(s, chosen, pageCount))
    ensures HoldsCheckedFile(AfterSubmit(s, answer).state)
  {
  }

  /** What the panel sends, the upload route stores, on a configured server whose storage call succeeds:
      every file the panel holds passes the route's type and size checks, and the object is stored under
      the file's timestamped key with the file's type. */
  lemma SentFileIsStored(s: PanelState, env: PdfUploadRoute.R2Env, now: nat)
    requires PdfUploadRoute.Configured(env)
    requires HoldsCheckedFile(s) && s.file.Some?
    ensures var sub := SubmissionOf(s);
      var f := s.file.value;
      var form := PdfUploadRoute.UploadForm(
        Some(PdfUploadRoute.UploadedFile(f.name, f.mimeType, f.size)),
        Some(sub.title), Some(sub.description), Some(sub.price), Some(sub.pages), Some(sub.topics));
      var out := PdfUploadRoute.Upload(env, PdfUploadRoute.FormParsed(form), None, now);
      && out.stored.Some?
      && out.stored.value.key == R2Storage.UploadKey(now, f.name)
      && out.stored.value.contentType == f.mimeType
  {
    var f := s.file.value;
    PanelChecksMatchRoute(f.mimeType);
    var sub := SubmissionOf(s);
    var form := PdfUploadRoute.UploadForm(
      Some(PdfUploadRoute.UploadedFile(f.name, f.mimeType, f.size)),
      Some(sub.title), Some(sub.description), Some(sub.price), Some(sub.pages), Some(sub.topics));
    PdfUploadRoute.StoredOnlyWhenValid(env, PdfUploadRoute.FormParsed(form), None, now);
  }
}
