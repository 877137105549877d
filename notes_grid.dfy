/**
 * The notes grid (app/components/NotesGrid.tsx): one card per note, with a
 * file-type badge, the first topics, the page count, the price, a preview
 * link for PDFs and an add-to-cart button that is disabled once the note is
 * in the cart.
 *
 * A missing `key` is the empty string here; both are falsy. The URL encoding
 * of the preview link (`encodeURIComponent`) is a parameter.
 */
module NotesGrid {
  import opened Wrappers
  import opened JsStrings
  import opened Cart
  import opened Money
  import R2Storage
  import PdfPreviewRoute

  /** The badge of a file type. */
  datatype FileTypeInfo = FileTypeInfo(icon: string, kindName: string, color: string, isPdf: bool)

  const PdfInfo: FileTypeInfo := FileTypeInfo("PDF", "PDF", "red", true)
  const PowerPointInfo: FileTypeInfo := FileTypeInfo("PPT", "PowerPoint", "orange", false)
  const WordInfo: FileTypeInfo := FileTypeInfo("DOC", "Word", "blue", false)
  const ExcelInfo: FileTypeInfo := FileTypeInfo("XLS", "Excel", "green", false)

  const PreviewPrefix: string := "/api/pdfs/preview?key="
  /** `note.topics.slice(0, 3)` */
  const ShownTopics: nat := 3

  /** `key.split('.').pop()?.toLowerCase()`: the text after the last dot, lower-cased. */
  function Extension(key: string): string {
    ToLower(LastSegment(key, '.'))
  }

  /** The `switch` of `getFileTypeInfo`: two extensions each for PowerPoint, Word and Excel, PDF for any other. */
  function InfoForExtension(ext: string): FileTypeInfo {
    if ext == "ppt" || ext == "pptx" then PowerPointInfo
    else if ext == "doc" || ext == "docx" then WordInfo
    else if ext == "xls" || ext == "xlsx" then ExcelInfo
    else PdfInfo
  }

  /** `getFileTypeInfo`: a missing key is PDF; otherwise the badge of the key's extension. */
  function GetFileTypeInfo(key: string): FileTypeInfo {
    if key == "" then PdfInfo else InfoForExtension(Extension(key))
  }

  /** One card of the grid, as far as its content goes. */
  datatype Card = Card(
    info: FileTypeInfo,
    title: string,
    description: string,
    topics: seq<string>,
    pages: Option<Num>,
    price: string,
    previewHref: Option<string>,
    inCart: bool)

  datatype GridView = NoNotesYet | Cards(cards: seq<Card>)

  /** `note.pages > 0`: NaN compares false. */
  predicate PositivePages(pages: Num) {
    pages.Val? && pages.v > 0
  }

  function CardOf(note: Note, cart: seq<CartItem>, encode: string -> string): Card {
    Card(
      GetFileTypeInfo(note.key),
      note.title,
      note.description,
      if |note.topics| <= ShownTopics then note.topics else note.topics[..ShownTopics],
      if PositivePages(note.pages) then Some(note.pages) else None,
      PriceText(note.price),
      if note.key != "" && GetFileTypeInfo(note.key).isPdf then Some(PreviewPrefix + encode(note.key)) else None,
      IsInCart(cart, note.id))
  }

  /** The grid: an empty-state message for no notes, otherwise one card per note, in order. */
  function Grid(notes: seq<Note>, cart: seq<CartItem>, encode: string -> string): (view: GridView)
    ensures notes == [] <==> view.NoNotesYet?
    ensures view.Cards? ==> |view.cards| == |notes|
    ensures view.Cards? ==> forall i :: 0 <= i < |notes| ==> view.cards[i] == CardOf(notes[i], cart, encode)
  {
    if notes == [] then NoNotesYet
    else Cards(seq(|notes|, i requires 0 <= i < |notes| => CardOf(notes[i], cart, encode)))
  }

  // ------------------------------------------------------------------ properties

  /** The badge follows the extension, in any case: PowerPoint, Word and Excel for their two extensions
      each, PDF for a missing key and for every other extension, "pdf" among them. Only PDF badges
      count as PDFs. */
  lemma BadgeFollowsExtension(key: string)
    ensures var info := GetFileTypeInfo(key);
      var ext := Extension(key);
      && (info.isPdf <==> info == PdfInfo)
      && (key != "" && ext in {"ppt", "pptx"} <==> info == PowerPointInfo)
      && (key != "" && ext in {"doc", "docx"} <==> info == WordInfo)
      && (key != "" && ext in {"xls", "xlsx"} <==> info == ExcelInfo)
      && (key == "" || ext !in {"ppt", "pptx", "doc", "docx", "xls", "xlsx"} <==> info.isPdf)
  {
  }

  /** A listed key's extension is one of the seven supported ones, and the lower-cased key ends with it. */
  lemma ListedExtension(key: string) returns (i: nat)
    requires R2Storage.HasSupportedExtension(ToLower(key))
    ensures i < |R2Storage.SupportedExtensions|
    ensures "." + Extension(key) == R2Storage.SupportedExtensions[i]
    ensures EndsWith(ToLower(key), R2Storage.SupportedExtensions[i])
  {
    i :| 0 <= i < |R2Storage.SupportedExtensions| && EndsWith(ToLower(key), R2Storage.SupportedExtensions[i]);
    DottedExtension(i);
    DottedSuffixExtension(key, R2Storage.SupportedExtensions[i]);
  }

  /** A key whose lower-cased form ends with a dot and dot-free text has that text as its extension. */
  lemma DottedSuffixExtension(key: string, dotted: string)
    requires |dotted| >= 2 && dotted[0] == '.' && '.' !in dotted[1..]
    requires EndsWith(ToLower(key), dotted)
    ensures "." + Extension(key) == dotted
  {
    var ext := dotted[1..];
    assert dotted == ['.'] + ext;
    LowerLastSegment(key, '.', ext);
  }

  /** Each supported extension is a dot followed by dot-free text. */
  lemma DottedExtension(i: nat)
    requires i < |R2Storage.SupportedExtensions|
    ensures var dotted := R2Storage.SupportedExtensions[i];
      |dotted| >= 2 && dotted[0] == '.' && '.' !in dotted[1..]
  {
  }

  /** Of the supported extensions, only the first, ".pdf", gets the PDF badge, and only it is a suffix
      that agrees with ".pdf". */
  lemma SupportedBadges(i: nat, low: string)
    requires i < |R2Storage.SupportedExtensions| && EndsWith(low, R2Storage.SupportedExtensions[i])
    ensures InfoForExtension(R2Storage.SupportedExtensions[i][1..]).isPdf <==> i == 0
    ensures EndsWith(low, ".pdf") <==> i == 0
  {
    var dotted := R2Storage.SupportedExtensions[i];
    assert low[|low| - 1] == dotted[|dotted| - 1];
    if 4 <= |low| {
      assert low[|low| - 4..][3] == low[|low| - 1];
    }
  }

  /** For a key the listing returns, the grid's badge and the preview route agree on what a PDF is. */
  lemma ListedBadgeMatchesPreview(key: string)
    requires R2Storage.HasSupportedExtension(ToLower(key))
    ensures GetFileTypeInfo(key).isPdf <==> PdfPreviewRoute.IsPdfFile(key)
  {
    var i := ListedExtension(key);
    assert key != "";
    assert Extension(key) == R2Storage.SupportedExtensions[i][1..];
    SupportedBadges(i, ToLower(key));
  }

  /** A card links to the preview exactly when the note has a key whose badge is PDF; for a listed key
      the linked request passes every key check of the preview route, so it reaches storage on a
      configured server. */
  lemma PreviewLinkOnlyForPdf(note: Note, cart: seq<CartItem>, encode: string -> string, configured: bool,
                              read: string -> PdfPreviewRoute.StorageAnswer)
    ensures var card := CardOf(note, cart, encode);
      && (card.previewHref.Some? <==> note.key != "" && GetFileTypeInfo(note.key).isPdf)
      && (card.previewHref.Some? ==> card.previewHref.value == PreviewPrefix + encode(note.key))
    ensures CardOf(note, cart, encode).previewHref.Some? && R2Storage.HasSupportedExtension(ToLower(note.key)) ==>
              PdfPreviewRoute.Preview(Some(note.key), configured, read).storageRead == configured
  {
    var card := CardOf(note, cart, encode);
    if card.previewHref.Some? && R2Storage.HasSupportedExtension(ToLower(note.key)) {
      ListedBadgeMatchesPreview(note.key);
      PdfPreviewRoute.PdfKeyHasPdfExt(note.key);
      PdfPreviewRoute.KeyChecksBeforeStorage(Some(note.key), configured, read);
    }
  }

  /** The add button is disabled exactly while the note's id is in the cart; pressing it while enabled
      appends the note with quantity one. */
  lemma AddButtonFollowsCart(note: Note, cart: seq<CartItem>, encode: string -> string)
    ensures CardOf(note, cart, encode).inCart <==> IsInCart(cart, note.id)
    ensures !CardOf(note, cart, encode).inCart ==> AddToCart(cart, note) == cart + [CartItem(note, 1)]
  {
  }

  /** A card shows at most three topics, the first ones in order, and a page count only when it is a
      positive number. */
  lemma CardShowsFirstTopics(note: Note, cart: seq<CartItem>, encode: string -> string)
    ensures var card := CardOf(note, cart, encode);
      && |card.topics| <= ShownTopics
      && |card.topics| == (if |note.topics| < ShownTopics then |note.topics| else ShownTopics)
      && (forall i :: 0 <= i < |card.topics| ==> card.topics[i] == note.topics[i])
      && (card.pages.Some? <==> note.pages.Val? && note.pages.v > 0)
  {
  }
}
