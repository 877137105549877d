/**
 * POST /api/pdfs/upload (app/api/pdfs/upload/route.ts): configuration check,
 * file presence, type and size checks, metadata defaults and sanitising, and
 * the call to the storage helper's `uploadFile`.
 *
 * The type check is modelled twice. `TypeAcceptedAsWritten` is the plain-object
 * lookup `SUPPORTED_FILE_TYPES[file.type]`, which inherited property names also
 * pass; `TypeAccepted` is the check the table evidently intends, and the
 * handler `Upload` uses it. Storage failures are a parameter, and the upload
 * time is the parameter `now`.
 */
module PdfUploadRoute {
  import opened Wrappers
  import opened JsStrings
  import opened MailFailure
  import opened R2Storage

  /** `50 * 1024 * 1024`: larger files are refused, a file of exactly this size is accepted. */
  const MaxUploadBytes: nat := 50 * 1024 * 1024

  /** The per-field length limits handed to `sanitizeMetadata`. */
  const TitleLimit: nat := 200
  const DescriptionLimit: nat := 500
  const PriceLimit: nat := 20
  const PagesLimit: nat := 10
  const TopicsLimit: nat := 500

  // ------------------------------------------------------------------ the type check

  /** The property names every plain object inherits whose spelling survives the lower-casing of
      `File.type`; looking them up in `SUPPORTED_FILE_TYPES` yields a function or an object. */
  const InheritedKeys: set<string> := {"constructor", "__proto__"}

  /** `SUPPORTED_FILE_TYPES[file.type]` is truthy: an own key of the table, or an inherited one. */
  predicate TypeAcceptedAsWritten(mimeType: string) {
    ExtensionFor(mimeType).Some? || mimeType in InheritedKeys
  }

  /** The evidently intended check: the type is one of the seven in the table. */
  predicate TypeAccepted(mimeType: string) {
    ExtensionFor(mimeType).Some?
  }

  /** As written, the check accepts exactly the table's types and the inherited property names. */
  lemma AsWrittenAcceptsInheritedKeys(mimeType: string)
    ensures TypeAcceptedAsWritten(mimeType) <==> TypeAccepted(mimeType) || mimeType in InheritedKeys
    ensures TypeAccepted(mimeType) ==> TypeAcceptedAsWritten(mimeType)
  {
  }

  /** A file declared as type `constructor` passes the check as written, though it is none of the seven. */
  lemma ConstructorTypePassesAsWritten()
    ensures TypeAcceptedAsWritten("constructor") && !TypeAccepted("constructor")
  {
    assert "constructor" in InheritedKeys;
    assert forall i :: 0 <= i < |SupportedFileTypes| ==> SupportedFileTypes[i].0 != "constructor";
  }

  // ------------------------------------------------------------------ sanitizeMetadata

  predicate IsPrintable(c: char) {
    ' ' <= c <= '~'
  }

  /** `.replace(/[\r\n\t]/g, ' ')` */
  function Untab(s: string): (r: string)
    ensures |r| == |s|
    ensures forall i :: 0 <= i < |s| ==> r[i] == (if s[i] == '\r' || s[i] == '\n' || s[i] == '\t' then ' ' else s[i])
  {
    seq(|s|, i requires 0 <= i < |s| => if s[i] == '\r' || s[i] == '\n' || s[i] == '\t' then ' ' else s[i])
  }

  /** `.replace(/[^\x20-\x7E]/g, '')` */
  function Printables(s: string): (r: string)
    ensures |r| <= |s|
    ensures forall i :: 0 <= i < |r| ==> IsPrintable(r[i])
    ensures (forall i :: 0 <= i < |s| ==> IsPrintable(s[i])) ==> r == s
  {
    if s == [] then []
    else if IsPrintable(s[0]) then [s[0]] + Printables(s[1..])
    else Printables(s[1..])
  }

  /** One character survives exactly when it is printable. */
  lemma PrintablesOne(c: char)
    ensures Printables([c]) == if IsPrintable(c) then [c] else []
  {
    assert [c][1..] == [];
  }

  /** The filter works character by character: the printable characters are kept in their order. */
  lemma {:induction false} PrintablesAppend(a: string, b: string)
    ensures Printables(a + b) == Printables(a) + Printables(b)
    decreases |a|
  {
    if a != [] {
      assert (a + b)[0] == a[0];
      assert (a + b)[1..] == a[1..] + b;
      PrintablesAppend(a[1..], b);
    } else {
      assert a + b == b;
    }
  }

  /** Trimming keeps only characters of its input. */
  lemma TrimKeepsPrintable(s: string)
    requires forall i :: 0 <= i < |s| ==> IsPrintable(s[i])
    ensures forall i :: 0 <= i < |Trim(s)| ==> IsPrintable(Trim(s)[i])
  {
    var k := TrimIsInfix(s);
    forall i | 0 <= i < |Trim(s)| ensures IsPrintable(Trim(s)[i]) {
      assert Trim(s)[i] == s[k + i];
    }
  }

  /** `substring(0, maxLength)`: the longest start of `s` that fits the limit. */
  function Cut(s: string, maxLength: nat): (r: string)
    ensures |r| <= maxLength && r <= s
    ensures |r| == maxLength || r == s
  {
    s[..if |s| < maxLength then |s| else maxLength]
  }

  /** `sanitizeMetadata(value, maxLength)`: line breaks and tabs become spaces, everything outside
      printable ASCII is dropped, the rest is trimmed and cut to `maxLength`. The result is printable
      ASCII (so free of line breaks and tabs), does not start with a space, fits the limit, and is the
      longest such start of the cleaned text. */
  function Sanitize(value: string, maxLength: nat): (r: string)
    ensures |r| <= maxLength
    ensures forall i :: 0 <= i < |r| ==> IsPrintable(r[i])
    ensures r == [] || r[0] != ' '
    ensures var cleaned := Trim(Printables(Untab(value)));
      r <= cleaned && (|r| == maxLength || r == cleaned)
  {
    var printable := Printables(Untab(value));
    TrimKeepsPrintable(printable);
    Cut(Trim(printable), maxLength)
  }

  /** A value that is already clean, short enough and not padded with spaces passes through unchanged. */
  lemma CleanValueKept(value: string, maxLength: nat)
    requires forall i :: 0 <= i < |value| ==> IsPrintable(value[i])
    requires value == [] || (value[0] != ' ' && value[|value| - 1] != ' ')
    requires |value| <= maxLength
    ensures Sanitize(value, maxLength) == value
  {
    assert Untab(value) == value;
    assert Printables(value) == value;
    TrimUnchanged(value);
  }

  /** Cutting can leave a trailing space, so a second pass may shorten the text further:
      "ab c" cut to three characters is "ab ", which sanitises again to "ab". */
  lemma SanitizeCanLeaveTrailingSpace()
    ensures Sanitize("ab c", 3) == "ab "
    ensures Sanitize(Sanitize("ab c", 3), 3) == "ab"
  {
    SanitizeCutsAtSpace();
    SanitizeDropsTrailingSpace();
  }

  /** In general: whenever the cut of the cleaned text ends on a space, the result ends in a space, and
      sanitising it again gives something shorter. */
  lemma CutAtSpaceShortensAgain(value: string, maxLength: nat)
    requires var cleaned := Trim(Printables(Untab(value)));
      0 < maxLength < |cleaned| && cleaned[maxLength - 1] == ' '
    ensures var r := Sanitize(value, maxLength); |r| == maxLength && r[maxLength - 1] == ' '
    ensures |Sanitize(Sanitize(value, maxLength), maxLength)| < maxLength
  {
    var r := Sanitize(value, maxLength);
    CleanTextUntouched(r);
    TrimDropsTrailingSpace(r);
  }

  /** Printable text has no line break or tab to replace and nothing to drop. */
  lemma CleanTextUntouched(r: string)
    requires forall i :: 0 <= i < |r| ==> IsPrintable(r[i])
    ensures Printables(Untab(r)) == r
  {
    assert Untab(r) == r;
  }

  /** Text ending in a space loses at least that space to `trim`. */
  lemma TrimDropsTrailingSpace(r: string)
    requires r != [] && r[|r| - 1] == ' '
    ensures |Trim(r)| < |r|
  {
  }

  /** The first pass of `SanitizeCanLeaveTrailingSpace`. */
  lemma SanitizeCutsAtSpace()
    ensures Sanitize("ab c", 3) == "ab "
  {
    assert Untab("ab c") == "ab c";
    assert Printables("ab c") == "ab c";
    TrimUnchanged("ab c");
  }

  /** The second pass of `SanitizeCanLeaveTrailingSpace`. */
  lemma SanitizeDropsTrailingSpace()
    ensures Sanitize("ab ", 3) == "ab"
  {
    assert Untab("ab ") == "ab ";
    assert Printables("ab ") == "ab ";
    assert TrimStart("ab ") == "ab ";
    assert "ab "[..2] == "ab";
    assert TrimEnd("ab") == "ab";
    assert TrimEnd("ab ") == "ab";
    assert Trim("ab ") == "ab";
    assert Cut("ab", 3) == "ab";
  }

  // ------------------------------------------------------------------ the handler

  /** The storage credentials the handler insists on. */
  datatype R2Env = R2Env(accountId: Option<string>, accessKeyId: Option<string>, secretAccessKey: Option<string>, bucketName: Option<string>)

  predicate Configured(env: R2Env) {
    Truthy(env.accountId) && Truthy(env.accessKeyId) && Truthy(env.secretAccessKey) && Truthy(env.bucketName)
  }

  datatype UploadedFile = UploadedFile(name: string, mimeType: string, size: nat)

  /** The form fields; every text field may be missing. */
  datatype UploadForm = UploadForm(
    file: Option<UploadedFile>,
    title: Option<string>, description: Option<string>, price: Option<string>,
    pages: Option<string>, topics: Option<string>)

  /** `request.formData()`: the parsed form, or the message of the error it throws. */
  datatype FormRead = FormParsed(form: UploadForm) | FormUnreadable(message: string)

  datatype UploadReply = Uploaded(data: UploadResult) | UploadError(status: nat, error: string)

  datatype UploadOutcome = UploadOutcome(reply: UploadReply, stored: Option<StoredObject>)

  /** The metadata handed to `uploadFile`: each field defaulted, then sanitised to its limit. */
  function UploadMetadata(form: UploadForm, fileName: string): (m: map<string, string>)
    ensures m.Keys == {"title", "description", "price", "pages", "topics"}
  {
    map[
      "title" := Sanitize(Or(form.title, fileName), TitleLimit),
      "description" := Sanitize(Or(form.description, ""), DescriptionLimit),
      "price" := Sanitize(Or(form.price, "0"), PriceLimit),
      "pages" := Sanitize(Or(form.pages, "0"), PagesLimit),
      "topics" := Sanitize(Or(form.topics, ""), TopicsLimit)]
  }

  function UnsupportedTypeText(): string {
    "Unsupported file type. Allowed: " + JoinWith(SupportedExtensions, ", ")
  }

  /** The handler with the intended type check. */
  function Upload(env: R2Env, read: FormRead, storeError: Option<Option<string>>, now: nat): UploadOutcome {
    UploadChecking(false, env, read, storeError, now)
  }

  /** The handler as written, with the plain-object lookup as its type check. */
  function UploadAsWritten(env: R2Env, read: FormRead, storeError: Option<Option<string>>, now: nat): UploadOutcome {
    UploadChecking(true, env, read, storeError, now)
  }

  /** The handler's checks and storage call, with the lookup as written or the intended check.
      `storeError` is `None` when the storage call succeeds, otherwise the thrown error's message when it
      is an `Error`. */
  function UploadChecking(asWritten: bool, env: R2Env, read: FormRead, storeError: Option<Option<string>>, now: nat)
    : UploadOutcome
  {
    if !Configured(env) then
      UploadOutcome(UploadError(500, "Server configuration error: Missing R2 credentials"), None)
    else if read.FormUnreadable? then
      UploadOutcome(UploadError(500, read.message), None)
    else if read.form.file.None? then
      UploadOutcome(UploadError(400, "No file provided"), None)
    else
      var file := read.form.file.value;
      if !(if asWritten then TypeAcceptedAsWritten(file.mimeType) else TypeAccepted(file.mimeType)) then
        UploadOutcome(UploadError(400, UnsupportedTypeText()), None)
      else if file.size > MaxUploadBytes then
        UploadOutcome(UploadError(400, "File size must be less than 50MB"), None)
      else if storeError.Some? then
        UploadOutcome(UploadError(500, storeError.value.GetOr("Failed to upload file")), None)
      else
        var r := UploadFile(file.size, file.name, file.mimeType, UploadMetadata(read.form, file.name), now);
        UploadOutcome(Uploaded(r.1), Some(r.0))
  }

  // ------------------------------------------------------------------ properties

  /** Missing credentials answer 500 whatever the request holds. */
  lemma UnconfiguredRefusesFirst(env: R2Env, read: FormRead, storeError: Option<Option<string>>, now: nat)
    requires !Configured(env)
    ensures Upload(env, read, storeError, now) == UploadOutcome(UploadError(500, "Server configuration error: Missing R2 credentials"), None)
  {
  }

  /** A file is stored exactly when the handler is configured, the form reads, a file is present, its type
      is one of the seven, it is at most 50 MiB and storage succeeds. The stored object then has the
      file's type and size, and its metadata holds the defaulted, sanitised fields. */
  lemma StoredOnlyWhenValid(env: R2Env, read: FormRead, storeError: Option<Option<string>>, now: nat)
    ensures var out := Upload(env, read, storeError, now);
      && (out.stored.Some? <==>
            && Configured(env) && read.FormParsed? && read.form.file.Some?
            && TypeAccepted(read.form.file.value.mimeType)
            && read.form.file.value.size <= MaxUploadBytes
            && storeError.None?)
      && (out.stored.Some? ==>
            var file := read.form.file.value;
            && out.stored.value.contentType == file.mimeType
            && ExtensionFor(out.stored.value.contentType).Some?
            && out.stored.value.size == file.size
            && out.stored.value.key == UploadKey(now, file.name)
            && out.stored.value.metadata == UploadMetadata(read.form, file.name)["fileType" := file.mimeType]
            && out.reply == Uploaded(UploadResult(out.stored.value.key, file.name, file.size, now, file.mimeType)))
      && (out.reply.Uploaded? <==> out.stored.Some?)
  {
  }

  /** As written, a configured request carrying a file declared as `constructor`, of at most 50 MiB, is
      stored with that content type, whereas the intended check refuses it. */
  lemma ConstructorFileStoredAsWritten(env: R2Env, form: UploadForm, name: string, size: nat, now: nat)
    requires Configured(env) && size <= MaxUploadBytes
    ensures var read := FormParsed(form.(file := Some(UploadedFile(name, "constructor", size))));
      && UploadAsWritten(env, read, None, now).stored.Some?
      && UploadAsWritten(env, read, None, now).stored.value.contentType == "constructor"
      && UploadAsWritten(env, read, None, now).stored.value.key == UploadKey(now, name)
      && Upload(env, read, None, now) == UploadOutcome(UploadError(400, UnsupportedTypeText()), None)
  {
    ConstructorTypePassesAsWritten();
  }

  /** Exactly 50 MiB is accepted and one byte more is refused. */
  lemma SizeLimitIsInclusive(env: R2Env, form: UploadForm, name: string, mimeType: string, now: nat)
    requires Configured(env) && TypeAccepted(mimeType)
    ensures Upload(env, FormParsed(form.(file := Some(UploadedFile(name, mimeType, MaxUploadBytes)))), None, now).stored.Some?
    ensures Upload(env, FormParsed(form.(file := Some(UploadedFile(name, mimeType, MaxUploadBytes + 1)))), None, now).reply
            == UploadError(400, "File size must be less than 50MB")
  {
  }

  /** Empty or missing title, price and pages fall back to the file name, "0" and "0". */
  lemma MetadataDefaults(form: UploadForm, fileName: string)
    requires !Truthy(form.title) && !Truthy(form.price) && !Truthy(form.pages)
    ensures var m := UploadMetadata(form, fileName);
      && m["title"] == Sanitize(fileName, TitleLimit)
      && m["price"] == "0" && m["pages"] == "0"
  {
    CleanValueKept("0", PriceLimit);
    CleanValueKept("0", PagesLimit);
    MetadataLookups(Sanitize(Or(form.title, fileName), TitleLimit), Sanitize(Or(form.description, ""), DescriptionLimit),
      Sanitize(Or(form.price, "0"), PriceLimit), Sanitize(Or(form.pages, "0"), PagesLimit), Sanitize(Or(form.topics, ""), TopicsLimit));
  }

  /** A value that can travel in an HTTP header field: printable ASCII, within `limit` characters. */
  predicate HeaderSafe(v: string, limit: nat) {
    |v| <= limit && forall i :: 0 <= i < |v| ==> IsPrintable(v[i])
  }

  lemma SanitizedIsHeaderSafe(v: string, limit: nat)
    ensures HeaderSafe(Sanitize(v, limit), limit)
  {
  }

  /** Every metadata value is printable ASCII within its field's limit. */
  lemma MetadataFitsHeaders(form: UploadForm, fileName: string)
    ensures var m := UploadMetadata(form, fileName);
      && HeaderSafe(m["title"], 200) && HeaderSafe(m["description"], 500) && HeaderSafe(m["price"], 20)
      && HeaderSafe(m["pages"], 10) && HeaderSafe(m["topics"], 500)
  {
    var title := Sanitize(Or(form.title, fileName), TitleLimit);
    var description := Sanitize(Or(form.description, ""), DescriptionLimit);
    var price := Sanitize(Or(form.price, "0"), PriceLimit);
    var pages := Sanitize(Or(form.pages, "0"), PagesLimit);
    var topics := Sanitize(Or(form.topics, ""), TopicsLimit);
    SanitizedIsHeaderSafe(Or(form.title, fileName), TitleLimit);
    SanitizedIsHeaderSafe(Or(form.description, ""), DescriptionLimit);
    SanitizedIsHeaderSafe(Or(form.price, "0"), PriceLimit);
    SanitizedIsHeaderSafe(Or(form.pages, "0"), PagesLimit);
    SanitizedIsHeaderSafe(Or(form.topics, ""), TopicsLimit);
    MetadataLookups(title, description, price, pages, topics);
  }

  /** Each of the five metadata keys looks up its own value. */
  lemma MetadataLookups(title: string, description: string, price: string, pages: string, topics: string)
    ensures var m := map["title" := title, "description" := description, "price" := price, "pages" := pages, "topics" := topics];
      && m["title"] == title && m["description"] == description && m["price"] == price
      && m["pages"] == pages && m["topics"] == topics
  {
  }
}
