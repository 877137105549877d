/**
 * The storage helpers over the R2 bucket (app/lib/r2.ts): the table of
 * supported file types, the key an upload is stored under, the metadata it
 * carries, and the mapping of a bucket listing to file records.
 *
 * The S3 client calls are answers handed in as parameters: the listing's
 * `Contents`, and for each key the answer of the metadata request.
 */
module R2Storage {
  import opened Wrappers
  import opened JsStrings

  /** `SUPPORTED_FILE_TYPES`, in its declaration order: MIME type and extension. */
  const SupportedFileTypes: seq<(string, string)> := [
    ("application/pdf", ".pdf"),
    ("application/vnd.ms-powerpoint", ".ppt"),
    ("application/vnd.openxmlformats-officedocument.presentationml.presentation", ".pptx"),
    ("application/msword", ".doc"),
    ("application/vnd.openxmlformats-officedocument.wordprocessingml.document", ".docx"),
    ("application/vnd.ms-excel", ".xls"),
    ("application/vnd.openxmlformats-officedocument.spreadsheetml.sheet", ".xlsx")
  ]

  /** `SUPPORTED_EXTENSIONS` */
  const SupportedExtensions: seq<string> := [".pdf", ".ppt", ".pptx", ".doc", ".docx", ".xls", ".xlsx"]

  /** The object key prefix of every upload. */
  const UploadPrefix: string := "files/"

  /** The extension the table gives a MIME type, if it lists it. */
  function ExtensionFor(mime: string): (r: Option<string>)
    ensures r.Some? <==> exists i :: 0 <= i < |SupportedFileTypes| && SupportedFileTypes[i].0 == mime
    ensures r.Some? ==> r.value in SupportedExtensions
    ensures r.Some? ==> exists i :: 0 <= i < |SupportedFileTypes| && SupportedFileTypes[i] == (mime, r.value)
  {
    if mime == SupportedFileTypes[0].0 then Some(SupportedFileTypes[0].1)
    else if mime == SupportedFileTypes[1].0 then Some(SupportedFileTypes[1].1)
    else if mime == SupportedFileTypes[2].0 then Some(SupportedFileTypes[2].1)
    else if mime == SupportedFileTypes[3].0 then Some(SupportedFileTypes[3].1)
    else if mime == SupportedFileTypes[4].0 then Some(SupportedFileTypes[4].1)
    else if mime == SupportedFileTypes[5].0 then Some(SupportedFileTypes[5].1)
    else if mime == SupportedFileTypes[6].0 then Some(SupportedFileTypes[6].1)
    else None
  }

  /** The type table and the extension list agree: seven types, onto exactly the seven extensions, in order. */
  lemma TypeTableMatchesExtensions()
    ensures |SupportedFileTypes| == |SupportedExtensions| == 7
    ensures forall i :: 0 <= i < 7 ==> SupportedFileTypes[i].1 == SupportedExtensions[i]
    ensures forall i, j :: 0 <= i < j < 7 ==> SupportedFileTypes[i].0 != SupportedFileTypes[j].0
    ensures forall i, j :: 0 <= i < j < 7 ==> SupportedExtensions[i] != SupportedExtensions[j]
  {
  }

  /** `SupportedExtensions.some(ext => s.endsWith(ext))` */
  predicate HasSupportedExtension(s: string) {
    exists i :: 0 <= i < |SupportedExtensions| && EndsWith(s, SupportedExtensions[i])
  }

  // ------------------------------------------------------------------ upload

  /** `files/${Date.now()}-${fileName}` */
  function UploadKey(now: nat, fileName: string): (key: string)
    ensures StartsWith(key, UploadPrefix)
    ensures EndsWith(key, fileName)
  {
    UploadPrefix + Decimal(now) + "-" + fileName
  }

  /** Reads back the file name of an upload key: the text after the first `-` past the prefix. */
  function FileNameOfKey(key: string): Option<string> {
    if !StartsWith(key, UploadPrefix) then None
    else
      var rest := key[|UploadPrefix|..];
      var dash := FirstIndex(rest, '-');
      if dash == |rest| then None else Some(rest[dash + 1..])
  }

  /** The upload key keeps the file name recoverable, whatever the name holds. */
  lemma UploadKeyRoundTrip(now: nat, fileName: string)
    ensures FileNameOfKey(UploadKey(now, fileName)) == Some(fileName)
  {
    var key := UploadKey(now, fileName);
    var rest := key[|UploadPrefix|..];
    assert rest == Decimal(now) + ['-'] + fileName;
    assert '-' !in Decimal(now) by {
      forall i | 0 <= i < |Decimal(now)| ensures Decimal(now)[i] != '-' {
        assert IsDigit(Decimal(now)[i]);
      }
    }
    FirstIndexOfJoin(Decimal(now), '-', fileName);
    assert rest[|Decimal(now)| + 1..] == fileName;
  }

  /** What `uploadFile` reports about the stored object. */
  datatype UploadResult = UploadResult(key: string, name: string, size: nat, uploadedAt: nat, fileType: string)

  /** The stored object: key, content type and user metadata. */
  datatype StoredObject = StoredObject(key: string, contentType: string, size: nat, metadata: map<string, string>)

  /** `uploadFile`: the object sent to the bucket and the record returned. */
  function UploadFile(fileLength: nat, fileName: string, contentType: string, metadata: map<string, string>, now: nat)
    : (r: (StoredObject, UploadResult))
    ensures r.0.key == r.1.key == UploadKey(now, fileName)
    ensures r.0.contentType == r.1.fileType == contentType
    ensures r.1.name == fileName && r.1.size == r.0.size == fileLength && r.1.uploadedAt == now
    ensures "fileType" in r.0.metadata && r.0.metadata["fileType"] == contentType
    ensures forall k | k in metadata && k != "fileType" :: k in r.0.metadata && r.0.metadata[k] == metadata[k]
    ensures r.0.metadata.Keys == metadata.Keys + {"fileType"}
  {
    var key := UploadKey(now, fileName);
    (StoredObject(key, contentType, fileLength, metadata["fileType" := contentType]),
     UploadResult(key, fileName, fileLength, now, contentType))
  }

  // ------------------------------------------------------------------ listing

  /** One entry of the listing's `Contents`. */
  datatype ListedObject = ListedObject(key: Option<string>, size: Option<nat>, lastModified: Option<nat>)

  /** The answer to the metadata request for one key: it failed, or user metadata (keys as the
      bucket returns them, lower-cased) and the content type. */
  datatype HeadAnswer = HeadFailed | Head(metadata: map<string, string>, contentType: Option<string>)

  /** A record of `listFiles`; the optional fields are those the metadata request fills in. */
  datatype FileRecord = FileRecord(
    key: string,
    name: string,
    size: nat,
    uploadedAt: nat,
    title: Option<string>,
    description: Option<string>,
    price: Option<string>,
    pages: Option<string>,
    topics: Option<string>,
    fileType: Option<string>)

  /** The filter of `listFiles`: the lower-cased key (or "") ends with a supported extension. */
  predicate IsListed(o: ListedObject) {
    HasSupportedExtension(ToLower(o.key.GetOr("")))
  }

  function Lookup(m: map<string, string>, k: string): Option<string> {
    if k in m then Some(m[k]) else None
  }

  /** `item.Key?.split('/').pop() || item.Key || ''` */
  function NameOf(key: Option<string>): (name: string)
    ensures key.None? ==> name == ""
    ensures key.Some? && LastSegment(key.value, '/') != "" ==> name == LastSegment(key.value, '/')
    ensures key.Some? && LastSegment(key.value, '/') == "" ==> name == key.value
  {
    if key.None? then "" else Or(Some(LastSegment(key.value, '/')), key.value)
  }

  /** The record for one listed object, with or without its metadata: the key (or ""), its name, its
      size (or 0) and its modification time (or now); a metadata answer adds the five upload fields and
      the stored `filetype`, falling back to the content type when that is missing or empty. */
  function RecordOf(o: ListedObject, head: HeadAnswer, now: nat): (r: FileRecord)
    ensures r.key == o.key.GetOr("") && r.name == NameOf(o.key)
    ensures r.size == (if o.size.Some? then o.size.value else 0)
    ensures r.uploadedAt == (if o.lastModified.Some? then o.lastModified.value else now)
    ensures head.HeadFailed? ==>
              r.title.None? && r.description.None? && r.price.None? && r.pages.None? && r.topics.None? && r.fileType.None?
    ensures head.Head? ==>
              && r.title == Lookup(head.metadata, "title") && r.description == Lookup(head.metadata, "description")
              && r.price == Lookup(head.metadata, "price") && r.pages == Lookup(head.metadata, "pages")
              && r.topics == Lookup(head.metadata, "topics")
    ensures head.Head? && "filetype" in head.metadata && head.metadata["filetype"] != "" ==>
              r.fileType == Some(head.metadata["filetype"])
    ensures head.Head? && !("filetype" in head.metadata && head.metadata["filetype"] != "") ==>
              r.fileType == head.contentType
  {
    var key := o.key.GetOr("");
    var size := if o.size.Some? then o.size.value else 0;
    var at := o.lastModified.GetOr(now);
    match head
    case HeadFailed => FileRecord(key, NameOf(o.key), size, at, None, None, None, None, None, None)
    case Head(meta, contentType) =>
      var ft := if Truthy(Lookup(meta, "filetype")) then Lookup(meta, "filetype") else contentType;
      FileRecord(key, NameOf(o.key), size, at,
        Lookup(meta, "title"), Lookup(meta, "description"), Lookup(meta, "price"),
        Lookup(meta, "pages"), Lookup(meta, "topics"), ft)
  }

  /** The listed objects, in listing order. */
  function Supported(contents: seq<ListedObject>): (r: seq<ListedObject>)
    ensures forall o :: o in r <==> o in contents && IsListed(o)
    ensures |r| <= |contents|
    decreases |contents|
  {
    if contents == [] then []
    else
      var last := contents[|contents| - 1];
      assert contents == contents[..|contents| - 1] + [last];
      Supported(contents[..|contents| - 1]) + (if IsListed(last) then [last] else [])
  }

  /** One object survives the filter exactly when it is listed. */
  lemma SupportedOne(o: ListedObject)
    ensures Supported([o]) == if IsListed(o) then [o] else []
  {
    assert [o][..0] == [];
  }

  /** The filter works object by object: filtering a concatenation concatenates the filtered parts, so
      the survivors keep their listing order and their number of occurrences. */
  lemma {:induction false} SupportedAppend(a: seq<ListedObject>, b: seq<ListedObject>)
    ensures Supported(a + b) == Supported(a) + Supported(b)
    decreases |b|
  {
    if b == [] {
      assert a + b == a;
    } else {
      var front := b[..|b| - 1];
      var last := b[|b| - 1];
      assert (a + b)[..|a + b| - 1] == a + front;
      assert b[..|b| - 1] == front;
      SupportedAppend(a, front);
    }
  }

  /** `listFiles`: no `Contents` gives no records; otherwise one record per supported object, in order. */
  function ListFiles(contents: Option<seq<ListedObject>>, head: Option<string> -> HeadAnswer, now: nat): (r: seq<FileRecord>)
    ensures contents.None? ==> r == []
    ensures contents.Some? ==> |r| == |Supported(contents.value)|
    ensures contents.Some? ==> forall i :: 0 <= i < |r| ==>
              var o := Supported(contents.value)[i];
              r[i] == RecordOf(o, head(o.key), now)
  {
    if contents.None? then []
    else
      var items := Supported(contents.value);
      seq(|items|, i requires 0 <= i < |items| => RecordOf(items[i], head(items[i].key), now))
  }

  /** Every listed record's key carries a supported extension. */
  lemma ListedKeysSupported(contents: seq<ListedObject>, head: Option<string> -> HeadAnswer, now: nat)
    ensures forall r | r in ListFiles(Some(contents), head, now) :: HasSupportedExtension(ToLower(r.key))
  {
    var files := ListFiles(Some(contents), head, now);
    forall r | r in files ensures HasSupportedExtension(ToLower(r.key)) {
      var i :| 0 <= i < |files| && files[i] == r;
      assert Supported(contents)[i] in Supported(contents);
    }
  }

  /** Lower-casing and suffixes commute: a suffix of `y` lower-cased is a suffix of `x + y` lower-cased. */
  lemma LowerSuffix(x: string, y: string, ext: string)
    requires EndsWith(ToLower(y), ext)
    ensures EndsWith(ToLower(x + y), ext)
  {
    var s := x + y;
    var low := ToLower(s);
    assert s[|x|..] == y;
    LowerOfSuffix(s, |x|);
    assert low[|s| - |ext|..] == low[|x|..][|y| - |ext|..];
  }

  /** An upload's own key is listed, whatever its timestamp, when its file name carries a supported extension. */
  lemma UploadIsListed(now: nat, fileName: string, size: nat)
    requires HasSupportedExtension(ToLower(fileName))
    ensures IsListed(ListedObject(Some(UploadKey(now, fileName)), Some(size), None))
  {
    var i :| 0 <= i < |SupportedExtensions| && EndsWith(ToLower(fileName), SupportedExtensions[i]);
    LowerSuffix(UploadPrefix + Decimal(now) + "-", fileName, SupportedExtensions[i]);
  }

  /** The last `/`-segment of an upload key is the timestamped file name when the name has no `/`. */
  lemma UploadKeyLastSegment(now: nat, fileName: string)
    requires '/' !in fileName
    ensures LastSegment(UploadKey(now, fileName), '/') == Decimal(now) + "-" + fileName
  {
    var tail := Decimal(now) + "-" + fileName;
    StampedNameHasNoSlash(Decimal(now), fileName);
    assert UploadPrefix == "files" + ['/'];
    assert UploadKey(now, fileName) == "files" + ['/'] + tail;
    LastSegmentAfter("files", '/', tail);
  }

  /** Digits, a dash and a name without `/` make a text without `/`. */
  lemma StampedNameHasNoSlash(digits: string, fileName: string)
    requires forall k :: 0 <= k < |digits| ==> IsDigit(digits[k])
    requires '/' !in fileName
    ensures '/' !in digits + "-" + fileName
  {
    var tail := digits + "-" + fileName;
    forall k | 0 <= k < |tail| ensures tail[k] != '/' {
      if k < |digits| {
        assert tail[k] == digits[k];
      } else if k > |digits| {
        assert tail[k] == fileName[k - |digits| - 1];
      }
    }
  }

  /** The listed name of an upload is the timestamped file name when the name has no `/`. */
  lemma UploadListedName(now: nat, fileName: string)
    requires '/' !in fileName && fileName != ""
    ensures NameOf(Some(UploadKey(now, fileName))) == Decimal(now) + "-" + fileName
  {
    UploadKeyLastSegment(now, fileName);
  }
}
