/**
 * GET /api/pdfs/preview (app/api/pdfs/preview/route.ts): a watermarked
 * preview of the first pages of a stored PDF.
 *
 * The key checks come first, then the configuration check, then the storage
 * read. The stored document is given by what reading it yields: no body, a
 * document with its page count, or a failure. The preview is described by its
 * page list; drawing the watermark and the info text is left to the PDF library.
 *
 * The route is modelled twice. `PreviewAsWritten` puts the file name into the
 * `Content-Disposition` header unchanged, so a name the headers refuse ends in
 * the catch's 500; `Preview`, which the rest of the model uses, serves every
 * found document under a name the headers accept.
 */
module PdfPreviewRoute {
  import opened Wrappers
  import opened JsStrings
  import R2Storage

  /** `PREVIEW_PAGES` */
  const PreviewPages: nat := 2

  /** `isPdfFile`: the lower-cased key ends with ".pdf". */
  predicate IsPdfFile(key: string) {
    EndsWith(ToLower(key), ".pdf")
  }

  /** `'.' + key.split('.').pop()?.toLowerCase()`: the text after the last dot, lower-cased, after a dot. */
  function FileExt(key: string): string {
    "." + ToLower(LastSegment(key, '.'))
  }

  /** A key with a dot has a last dot-segment shorter than itself. */
  lemma LastDotSegmentIsProper(key: string)
    requires '.' in key
    ensures |LastSegment(key, '.')| < |key|
  {
    var seg := LastSegment(key, '.');
    var n := |key|;
    forall k | n - |seg| <= k < n ensures key[k] != '.' {
      assert key[k] == seg[k - (n - |seg|)];
    }
    var j :| 0 <= j < n && key[j] == '.';
    assert j < n - |seg|;
  }

  /** The last-segment facts a PDF check needs, for a suffix `seg` of `key` that follows its last dot. */
  predicate FollowsLastDot(key: string, seg: string) {
    && |seg| < |key| && key[|key| - |seg| - 1] == '.'
    && seg == key[|key| - |seg|..] && '.' !in seg
  }

  lemma LastSegmentFollowsLastDot(key: string)
    requires '.' in key
    ensures FollowsLastDot(key, LastSegment(key, '.'))
  {
    LastDotSegmentIsProper(key);
  }

  /** A key ending in ".pdf", in any case, has "pdf" as its lower-cased last dot-segment. */
  lemma PdfKeyHasPdfExt(key: string)
    requires IsPdfFile(key)
    ensures FileExt(key) == ".pdf"
  {
    assert ".pdf" == ['.'] + "pdf";
    LowerLastSegment(key, '.', "pdf");
  }

  /** A key with a dot whose lower-cased last dot-segment is "pdf" ends in ".pdf", in some case. */
  lemma PdfExtKeyIsPdf(key: string)
    requires '.' in key && FileExt(key) == ".pdf"
    ensures IsPdfFile(key)
  {
    var seg := LastSegment(key, '.');
    assert ToLower(seg) == FileExt(key)[1..];
    LastSegmentFollowsLastDot(key);
    PdfSegmentEndsKey(key, seg);
  }

  lemma PdfSegmentEndsKey(key: string, seg: string)
    requires FollowsLastDot(key, seg) && ToLower(seg) == "pdf"
    ensures EndsWith(ToLower(key), ".pdf")
  {
    var n := |key|;
    var low := ToLower(key);
    assert |seg| == 3;
    assert key[n - 4] == '.';
    ToLowerKeeps(key, n - 4, '.');
    LowerOfSuffix(key, n - 3);
    assert low[n - 3..] == "pdf";
    assert low[n - 4..] == [low[n - 4]] + low[n - 3..];
  }

  /** The two checks agree on keys with a dot: a key is a PDF exactly when its extension is ".pdf". */
  lemma PdfCheckMatchesExtension(key: string)
    requires '.' in key
    ensures IsPdfFile(key) <==> FileExt(key) == ".pdf"
  {
    if IsPdfFile(key) {
      PdfKeyHasPdfExt(key);
    }
    if FileExt(key) == ".pdf" {
      PdfExtKeyIsPdf(key);
    }
  }

  /** A key with no dot at all has itself as its "extension", so a key that lower-cases to "pdf" passes
      the extension check as ".pdf" yet is not a PDF. */
  lemma DotlessPdfKey(key: string)
    requires ToLower(key) == "pdf"
    ensures FileExt(key) == ".pdf" && !IsPdfFile(key)
  {
    assert '.' !in key by {
      forall k | 0 <= k < |key| ensures key[k] != '.' {
        ToLowerKeeps(key, k, '.');
        assert ToLower(key)[k] in "pdf";
      }
    }
    LastSegmentOfPlain(key, '.');
    assert "." + "pdf" == ".pdf";
  }

  /** What reading the object yields. */
  datatype StorageAnswer = NoBody | Document(totalPages: nat) | ReadFailed

  /** A page of the preview: a watermarked copy of a source page, or the closing information page. */
  datatype PreviewPage = Watermarked(sourcePage: nat) | InfoPage(shown: nat, total: nat)

  datatype PreviewReply =
    | PreviewPdf(fileName: string, pages: seq<PreviewPage>, contentType: string, cacheControl: string)
    | PreviewError(status: nat, error: string, fileType: Option<string>)

  /** The reply, and whether storage was read. */
  datatype PreviewOutcome = PreviewOutcome(reply: PreviewReply, storageRead: bool)

  /** `Math.min(PREVIEW_PAGES, totalPages)` */
  function PagesToCopy(totalPages: nat): (k: nat)
    ensures k <= PreviewPages && k <= totalPages
    ensures k == PreviewPages || k == totalPages
  {
    if PreviewPages < totalPages then PreviewPages else totalPages
  }

  /** The preview's pages: the first pages, watermarked and in order, then one information page. */
  function PreviewPagesOf(totalPages: nat): (pages: seq<PreviewPage>)
    ensures |pages| == PagesToCopy(totalPages) + 1
    ensures forall i :: 0 <= i < PagesToCopy(totalPages) ==> pages[i] == Watermarked(i)
    ensures pages[|pages| - 1] == InfoPage(PagesToCopy(totalPages), totalPages)
  {
    var k := PagesToCopy(totalPages);
    seq(k, i requires 0 <= i < k => Watermarked(i)) + [InfoPage(k, totalPages)]
  }

  /** `preview-${key.split('/').pop()}` */
  function PreviewFileName(key: string): string {
    "preview-" + LastSegment(key, '/')
  }

  /** A character the response headers accept in a value: one byte wide, and not NUL, CR or LF. */
  predicate HeaderSafeChar(c: char) {
    c as int <= 0xFF && c != '\0' && c != '\r' && c != '\n'
  }

  predicate HeaderSafe(s: string) {
    forall i :: 0 <= i < |s| ==> HeaderSafeChar(s[i])
  }

  /** The file name as the response may carry it: every character the headers refuse becomes `_`. */
  function HeaderSafeName(s: string): (r: string)
    ensures |r| == |s| && HeaderSafe(r)
    ensures forall i :: 0 <= i < |s| ==> r[i] == (if HeaderSafeChar(s[i]) then s[i] else '_')
    ensures HeaderSafe(s) ==> r == s
  {
    seq(|s|, i requires 0 <= i < |s| => if HeaderSafeChar(s[i]) then s[i] else '_')
  }

  /**
   * The route with the file name made safe for the `Content-Disposition` header, so that every
   * found document is previewed; the rest of the model uses this one.
   */
  function Preview(key: Option<string>, configured: bool, read: string -> StorageAnswer): PreviewOutcome {
    PreviewChecking(false, key, configured, read)
  }

  /**
   * The route as written: the name goes into the header unchanged, and a name the headers refuse
   * makes the response constructor throw, which the catch answers with 500.
   */
  function PreviewAsWritten(key: Option<string>, configured: bool, read: string -> StorageAnswer): PreviewOutcome {
    PreviewChecking(true, key, configured, read)
  }

  function PreviewChecking(asWritten: bool, key: Option<string>, configured: bool, read: string -> StorageAnswer)
    : PreviewOutcome
  {
    if !Truthy(key) then
      PreviewOutcome(PreviewError(400, "File key is required", None), false)
    else if FileExt(key.value) !in R2Storage.SupportedExtensions then
      PreviewOutcome(PreviewError(400, "Unsupported file type", None), false)
    else if !IsPdfFile(key.value) then
      PreviewOutcome(PreviewError(400, "Preview not available for this file type. Please purchase to download.",
                                  Some(FileExt(key.value))), false)
    else if !configured then
      PreviewOutcome(PreviewError(500, "Server configuration error", None), false)
    else
      match read(key.value)
      case NoBody => PreviewOutcome(PreviewError(404, "File not found", None), true)
      case ReadFailed => PreviewOutcome(PreviewError(500, "Failed to generate preview", None), true)
      case Document(total) =>
        var name := PreviewFileName(key.value);
        if asWritten && !HeaderSafe(name) then
          PreviewOutcome(PreviewError(500, "Failed to generate preview", None), true)
        else
          PreviewOutcome(PreviewPdf(HeaderSafeName(name), PreviewPagesOf(total), "application/pdf",
                                    "public, max-age=3600"), true)
  }

  // ------------------------------------------------------------------ properties

  /** Storage is read only for a present PDF key with a supported extension on a configured server;
      every other request is answered from the key alone. */
  lemma KeyChecksBeforeStorage(key: Option<string>, configured: bool, read: string -> StorageAnswer)
    ensures var out := Preview(key, configured, read);
      && (out.storageRead <==>
            Truthy(key) && FileExt(key.value) in R2Storage.SupportedExtensions && IsPdfFile(key.value) && configured)
      && (out.reply.PreviewPdf? ==> out.storageRead)
  {
  }

  /** A supported non-PDF key is refused with 400 naming its extension. */
  lemma NonPdfNamesItsType(key: string, configured: bool, read: string -> StorageAnswer)
    requires key != "" && FileExt(key) in R2Storage.SupportedExtensions && !IsPdfFile(key)
    ensures Preview(Some(key), configured, read).reply.PreviewError?
    ensures Preview(Some(key), configured, read).reply.status == 400
    ensures Preview(Some(key), configured, read).reply.fileType == Some(FileExt(key))
  {
  }

  /** A served preview holds at most two source pages, exactly as many as the document has when it is
      shorter, and one information page at the end saying how many of how many pages are shown. */
  lemma PreviewShape(key: Option<string>, configured: bool, read: string -> StorageAnswer)
    requires Preview(key, configured, read).reply.PreviewPdf?
    ensures var r := Preview(key, configured, read).reply;
      && read(key.value).Document?
      && var total := read(key.value).totalPages;
      && |r.pages| == (if total < PreviewPages then total else PreviewPages) + 1
      && r.pages[|r.pages| - 1].InfoPage?
      && (forall i :: 0 <= i < |r.pages| - 1 ==> r.pages[i] == Watermarked(i) && i < total)
      && r.fileName == HeaderSafeName(PreviewFileName(key.value))
      && HeaderSafe(r.fileName)
      && (HeaderSafe(PreviewFileName(key.value)) ==> r.fileName == PreviewFileName(key.value))
  {
  }

  /** The route as written answers like the corrected one, except that a found document whose
      preview name the headers refuse is answered with 500 after storage was read. */
  lemma AsWrittenDiffersOnlyOnUnsafeNames(key: Option<string>, configured: bool, read: string -> StorageAnswer)
    ensures var fixed := Preview(key, configured, read);
      var written := PreviewAsWritten(key, configured, read);
      && written.storageRead == fixed.storageRead
      && (written.reply != fixed.reply <==>
            fixed.reply.PreviewPdf? && !HeaderSafe(PreviewFileName(key.value)))
      && (written.reply != fixed.reply ==>
            written.reply == PreviewError(500, "Failed to generate preview", None))
  {
    if Truthy(key) && FileExt(key.value) in R2Storage.SupportedExtensions && IsPdfFile(key.value) && configured
       && read(key.value).Document? {
      assert Preview(key, configured, read).reply.PreviewPdf?;
    } else {
      assert PreviewAsWritten(key, configured, read) == Preview(key, configured, read);
    }
  }

  /** A found PDF on a configured server whose preview name the headers refuse: the route as written
      answers 500, the corrected route serves the preview under the safe name. */
  lemma UnsafeNameFailsAsWritten(key: string, total: nat, read: string -> StorageAnswer)
    requires key != "" && FileExt(key) in R2Storage.SupportedExtensions && IsPdfFile(key)
    requires read(key) == Document(total) && !HeaderSafe(PreviewFileName(key))
    ensures PreviewAsWritten(Some(key), true, read) ==
              PreviewOutcome(PreviewError(500, "Failed to generate preview", None), true)
    ensures Preview(Some(key), true, read).reply ==
              PreviewPdf(HeaderSafeName(PreviewFileName(key)), PreviewPagesOf(total), "application/pdf",
                         "public, max-age=3600")
  {
  }

  /** The key `files/1-a–b.pdf`, holding an en dash, is a PDF key with a supported extension. */
  lemma EnDashKeyIsPdf()
    ensures FileExt("files/1-a\U{2013}b.pdf") in R2Storage.SupportedExtensions
    ensures IsPdfFile("files/1-a\U{2013}b.pdf")
  {
    var key := "files/1-a\U{2013}b.pdf";
    var low := ToLower(key);
    assert low[|key| - 4..] == [low[11], low[12], low[13], low[14]];
    assert low[|key| - 4..] == ".pdf";
    PdfKeyHasPdfExt(key);
  }

  /** Its preview name holds the en dash, which the headers refuse; the safe name replaces it. */
  lemma EnDashNameIsUnsafe()
    ensures PreviewFileName("files/1-a\U{2013}b.pdf") == "preview-1-a\U{2013}b.pdf"
    ensures !HeaderSafe("preview-1-a\U{2013}b.pdf")
  {
    var key := "files/1-a\U{2013}b.pdf";
    LastSegmentUnique(key, '/', |key| - 6);
    assert key[6..] == "1-a\U{2013}b.pdf";
    assert !HeaderSafeChar("preview-1-a\U{2013}b.pdf"[11]);
  }

  /** The safe name replaces the dash, and only the dash, with `_`. */
  lemma EnDashSafeName()
    ensures HeaderSafeName("preview-1-a\U{2013}b.pdf") == "preview-1-a_b.pdf"
  {
    var name := "preview-1-a\U{2013}b.pdf";
    assert !HeaderSafeChar(name[11]);
    var safe := HeaderSafeName(name);
    assert safe[..11] == name[..11];
    assert safe[12..] == name[12..];
    assert safe == safe[..11] + [safe[11]] + safe[12..];
  }

  /** A stored PDF whose key holds an en dash: the route as written answers 500, the corrected
      route serves its preview with the dash replaced. */
  lemma EnDashKeyFailsAsWritten(read: string -> StorageAnswer)
    requires read("files/1-a\U{2013}b.pdf") == Document(3)
    ensures PreviewAsWritten(Some("files/1-a\U{2013}b.pdf"), true, read) ==
              PreviewOutcome(PreviewError(500, "Failed to generate preview", None), true)
    ensures Preview(Some("files/1-a\U{2013}b.pdf"), true, read).reply.PreviewPdf?
    ensures Preview(Some("files/1-a\U{2013}b.pdf"), true, read).reply.fileName == "preview-1-a_b.pdf"
  {
    EnDashKeyIsPdf();
    EnDashNameIsUnsafe();
    EnDashSafeName();
    UnsafeNameFailsAsWritten("files/1-a\U{2013}b.pdf", 3, read);
  }

  /** For a key made by an upload, the preview is named after the timestamped file name. */
  lemma UploadPreviewName(now: nat, fileName: string)
    requires '/' !in fileName
    ensures PreviewFileName(R2Storage.UploadKey(now, fileName)) == "preview-" + Decimal(now) + "-" + fileName
  {
    R2Storage.UploadKeyLastSegment(now, fileName);
  }
}
