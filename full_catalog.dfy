/**
 * The catalog page (app/components/FullCatalog.tsx): the storage listing,
 * fetched from `/api/pdfs/list`, is turned into the notes the grid shows.
 *
 * Each listed file record becomes a note whose id and key are the storage
 * key; the metadata strings stored with the upload fill the title,
 * description, topics, page count and price, with fixed fallbacks. The fetch
 * itself is a parameter: the list route's JSON body, or a thrown error.
 */
module FullCatalog {
  import opened Wrappers
  import opened JsStrings
  import opened Cart
  import opened Money
  import opened R2Storage

  const DefaultDescription: string := "Premium study notes and educational material"
  const LoadFailedText: string := "Failed to load notes"
  const FetchFailedText: string := "Failed to load notes from marketplace"

  /** `pdf.topics ? pdf.topics.split(',').map(t => t.trim()) : []` */
  function TopicsOf(topics: Option<string>): (r: seq<string>)
    ensures !Truthy(topics) ==> r == []
    ensures Truthy(topics) ==> r == SplitTrim(topics.value, ',')
  {
    if Truthy(topics) then SplitTrim(topics.value, ',') else []
  }

  /** The note for one file record. The record carries no `url`, so `preview` is left empty. */
  function NoteOf(pdf: FileRecord): Note {
    Note(
      pdf.key,
      Or(pdf.title, ReplaceFirst(pdf.name, ".pdf", "")),
      Or(pdf.description, DefaultDescription),
      TopicsOf(pdf.topics),
      ParseInt(Or(pdf.pages, "0")),
      ParsePrice(Or(pdf.price, "0")),
      "",
      0,
      0,
      pdf.key)
  }

  /** `data.data.map(...)`: one note per record, in order. */
  function Catalog(records: seq<FileRecord>): (notes: seq<Note>)
    ensures |notes| == |records|
    ensures forall i :: 0 <= i < |records| ==> notes[i] == NoteOf(records[i])
  {
    seq(|records|, i requires 0 <= i < |records| => NoteOf(records[i]))
  }

  /** What the fetch of the listing yields: the JSON body, or a thrown error. */
  datatype ListAnswer =
    | ListBody(success: bool, data: Option<seq<FileRecord>>, error: Option<string>)
    | FetchThrew

  /** What the page shows: the spinner, the notes, or the error view with its "Try Again" button. */
  datatype CatalogView = Spinner | Loaded(notes: seq<Note>) | LoadError(message: string)

  /** What the first load of the page shows once the fetch settles. */
  function Load(answer: ListAnswer): CatalogView {
    match answer
    case FetchThrew => LoadError(FetchFailedText)
    case ListBody(success, data, error) =>
      if success && data.Some? then Loaded(Catalog(data.value)) else LoadError(Or(error, LoadFailedText))
  }

  // ------------------------------------------------------------------ the page's state

  /** The page's React state: the notes, the loading flag, the error, and whether the mount effect
      has already fetched. */
  datatype PageState = PageState(notes: seq<Note>, loading: bool, error: Option<string>, hasFetched: bool)

  const InitialPage: PageState := PageState([], true, None, false)

  /** `fetchNotesFromR2` as written: a good answer replaces the notes and a bad one sets the error, but
      nothing ever clears an earlier error; loading ends either way. */
  function Fetched(s: PageState, answer: ListAnswer): PageState {
    match answer
    case FetchThrew => s.(loading := false, error := Some(FetchFailedText))
    case ListBody(success, data, error) =>
      if success && data.Some? then s.(loading := false, notes := Catalog(data.value))
      else s.(loading := false, error := Some(Or(error, LoadFailedText)))
  }

  /** The page's render: the spinner while loading, then the error whenever one is set, else the notes. */
  function Render(s: PageState): CatalogView {
    if s.loading then Spinner
    else if Truthy(s.error) then LoadError(s.error.value)
    else Loaded(s.notes)
  }

  /** `fetchNotesFromR2` as evidently intended: a good answer also clears the error. */
  function FetchedClearingError(s: PageState, answer: ListAnswer): PageState {
    if answer.ListBody? && answer.success && answer.data.Some? then Fetched(s, answer).(error := None)
    else Fetched(s, answer)
  }

  class CatalogPage {
    var notes: seq<Note>
    var loading: bool
    var error: Option<string>
    var hasFetched: bool

    function State(): PageState
      reads this
    {
      PageState(notes, loading, error, hasFetched)
    }

    constructor ()
      ensures State() == InitialPage
    {
      notes, loading, error, hasFetched := [], true, None, false;
    }

    /** The mount effect: fetches once, and does nothing when the ref says it already has. */
    method Mount(answer: ListAnswer)
      modifies this
      ensures old(hasFetched) ==> State() == old(State())
      ensures !old(hasFetched) ==> State() == Fetched(old(State()).(hasFetched := true), answer)
    {
      if hasFetched {
        return;
      }
      hasFetched := true;
      FetchNotesFromR2(answer);
    }

    /** `fetchNotesFromR2`, run on mount and by the error view's "Try Again" button. */
    method FetchNotesFromR2(answer: ListAnswer)
      modifies this
      ensures State() == Fetched(old(State()), answer)
    {
      loading := true;
      match answer {
        case FetchThrew =>
          error := Some(FetchFailedText);
        case ListBody(success, data, err) =>
          if success && data.Some? {
            notes := Catalog(data.value);
          } else {
            error := Some(Or(err, LoadFailedText));
          }
      }
      loading := false;
    }
  }

  // ------------------------------------------------------------------ properties

  /** Every note is named by its storage key, twice over, and starts unrated; the notes keep the
      listing's order. */
  lemma NotesFollowListing(records: seq<FileRecord>)
    ensures var notes := Catalog(records);
      && |notes| == |records|
      && forall i :: 0 <= i < |notes| ==>
           && notes[i].id == records[i].key
           && notes[i].key == records[i].key
           && notes[i].rating == 0 && notes[i].reviews == 0
  {
  }

  /** The first load of the page shows what `Load` says of the answer. */
  lemma FirstLoadShows(answer: ListAnswer)
    ensures Render(Fetched(InitialPage.(hasFetched := true), answer)) == Load(answer)
  {
  }

  /** As written, an error once shown stays: whatever a later fetch answers, a successful list
      included, the page keeps showing the earlier error and never the new notes. */
  lemma ErrorOutlivesRetry(s: PageState, answer: ListAnswer)
    requires Truthy(s.error)
    ensures Render(Fetched(s, answer)).LoadError?
    ensures answer.ListBody? && answer.success && answer.data.Some? ==>
              Render(Fetched(s, answer)) == LoadError(s.error.value)
  {
  }

  /** A failed first load followed by a successful "Try Again" still shows the error. */
  lemma FailedThenRetried(records: seq<FileRecord>)
    ensures var s := Fetched(InitialPage.(hasFetched := true), FetchThrew);
      Render(Fetched(s, ListBody(true, Some(records), None))) == LoadError(FetchFailedText)
  {
  }

  /** Clearing the error on success, the page always shows what the latest answer says, whatever
      happened before. */
  lemma RetryRecoversWhenCleared(s: PageState, answer: ListAnswer)
    ensures Render(FetchedClearingError(s, answer)) == Load(answer)
  {
  }

  /** On the first load the page shows notes exactly when the body reports success and carries a list,
      even an empty one; otherwise it shows the body's error, or the fixed text. */
  lemma LoadedOnlyOnSuccess(answer: ListAnswer)
    ensures Load(answer).Loaded? <==> answer.ListBody? && answer.success && answer.data.Some?
    ensures Load(answer).Loaded? ==> |Load(answer).notes| == |answer.data.value|
    ensures answer.FetchThrew? ==> Load(answer) == LoadError(FetchFailedText)
    ensures answer.ListBody? && !Load(answer).Loaded? && !Truthy(answer.error) ==> Load(answer) == LoadError(LoadFailedText)
  {
  }

  /** A record without stored metadata still becomes a complete note: the title is the file name with
      ".pdf" removed, the description the default text, no topics, and zero pages and price. */
  lemma BareRecordDefaults(pdf: FileRecord, base: string)
    requires pdf.title.None? && pdf.description.None? && pdf.topics.None?
    requires pdf.pages.None? && pdf.price.None?
    requires pdf.name == base + ".pdf" && '.' !in base
    ensures var n := NoteOf(pdf);
      && n.title == base
      && n.description == DefaultDescription
      && n.topics == []
      && n.pages == Val(0)
      && n.price == Val(0)
  {
    StemOfPdfName(base);
    ZeroReadsZero();
  }

  /** The fallback text "0" reads as zero pages and a zero price. */
  lemma ZeroReadsZero()
    ensures ParseInt("0") == Val(0) && ParsePrice("0") == Val(0)
  {
    assert Decimal(0) == "0";
    DecimalReadsBack(0);
    WholePriceReadsBack(0);
  }

  /** Removing the first ".pdf" of a name that ends in it and has no other dot leaves the stem. */
  lemma StemOfPdfName(base: string)
    requires '.' !in base
    ensures ReplaceFirst(base + ".pdf", ".pdf", "") == base
  {
    var s := base + ".pdf";
    assert s[|base|..] == ".pdf";
    assert StartsWith(s[|base|..], ".pdf");
    forall j | 0 <= j < |base| ensures !StartsWith(s[j..], ".pdf") {
      assert s[j..][..4][0] == base[j];
    }
    var i := Find(s, ".pdf").value;
    assert i <= |base|;
    assert StartsWith(s[i..], ".pdf") by {
      assert s[i..][..4] == s[i..i + 4];
    }
    assert i == |base|;
    assert s[..|base|] == base;
  }

  /** Metadata written the way the upload form writes it reads back: a price printed with two decimals
      is that price, a page count printed in decimal is that count, and comma-separated topics are the
      trimmed topics, in order. */
  lemma StoredMetadataReadsBack(pdf: FileRecord, price: Num, pages: nat, topics: seq<string>)
    requires pdf.price == Some(PriceText(price)) && pdf.pages == Some(Decimal(pages))
    requires |topics| >= 1 && (forall t | t in topics :: ',' !in t) && Join(topics, ',') != ""
    requires pdf.topics == Some(Join(topics, ','))
    ensures NoteOf(pdf).price == price
    ensures NoteOf(pdf).pages == Val(pages)
    ensures |NoteOf(pdf).topics| == |topics|
    ensures forall i :: 0 <= i < |topics| ==> NoteOf(pdf).topics[i] == Trim(topics[i])
  {
    PriceTextRoundTrip(price);
    PriceTextNonEmpty(price);
    assert Or(pdf.price, "0") == PriceText(price);
    DecimalReadsBack(pages);
    SplitTrimJoin(topics, ',');
  }

  lemma PriceTextNonEmpty(price: Num)
    ensures PriceText(price) != ""
  {
    if price.Val? && price.v >= 0 {
      assert |CentsText(price.v)| >= 4;
    }
  }

}
