/**
 * The document ingestor of components/FileUpload.tsx: the MIME-type dispatch, the plain-text
 * pass-through, the PDF page-assembly loop, and the component's `error` / `isReading` state
 * across the asynchronous `FileReader` callbacks.
 *
 * `FileReader`, pdf.js and the `onUpload` callback are abstracted: a read completes with the
 * decoded text, with a parsed PDF (its pages' text items, or a failure), or with a read error;
 * each call to `onUpload` is recorded in `uploads`.
 */
module FileUpload {
  import opened Wrappers
  import JsStrings

  const PlainTextType := "text/plain"
  const PdfType := "application/pdf"

  const UnsupportedTypeError := "Please upload a valid .txt or .pdf file."
  const ReadFailedError := "Failed to read the file."
  const PdfLibraryMissingError := "PDF library not loaded. Please refresh the page."
  const PdfUnreadableError := "Could not read the PDF file. It might be corrupted or protected."

  /** What `fullText` receives after every page. */
  const PageBreak := "\n\n"

  /** The `File` fields the component reads before the read completes. */
  datatype FileInfo = FileInfo(name: string, mimeType: string)

  /** Where `processFile` sends a file. */
  datatype FileKind = PlainText | Pdf | Unsupported

  /** The MIME dispatch: exact comparison of the declared type with the two accepted types. */
  function Route(mimeType: string): (kind: FileKind)
    ensures kind == PlainText <==> mimeType == PlainTextType
    ensures kind == Pdf <==> mimeType == PdfType
    ensures kind == Unsupported <==> mimeType != PlainTextType && mimeType != PdfType
  {
    if mimeType == PlainTextType then PlainText
    else if mimeType == PdfType then Pdf
    else Unsupported
  }

  // ---------------------------------------------------------------------------------------
  // PDF text assembly
  // ---------------------------------------------------------------------------------------

  /** One page as pdf.js delivers it: the `str` of each text item, or a failure of `getPage` or `getTextContent`. */
  datatype Page = Page(items: seq<string>) | PageFailed

  /** The document `getDocument(...).promise` settles to: pages 1..numPages in order, or a rejection. */
  datatype PdfDocument = Opened(pages: seq<Page>) | OpenFailed

  /** One page's text: its item strings joined with a single space. */
  function PageText(items: seq<string>): string {
    JsStrings.Join(items, ' ')
  }

  /** The text of pages 1..n: each page's text followed by a blank line, in page order. */
  function Concat(pages: seq<seq<string>>): (text: string)
    ensures |pages| == 0 ==> text == ""
    decreases |pages|
  {
    if |pages| == 0 then ""
    else Concat(pages[..|pages| - 1]) + PageText(pages[|pages| - 1]) + PageBreak
  }

  /** The text of a run of pages is the text of its first part followed by that of the rest. */
  lemma {:induction false} ConcatAppend(a: seq<seq<string>>, b: seq<seq<string>>)
    ensures Concat(a + b) == Concat(a) + Concat(b)
    decreases |b|
  {
    if |b| == 0 {
      assert a + b == a;
    } else {
      var b' := b[..|b| - 1];
      var last := PageText(b[|b| - 1]) + PageBreak;
      assert (a + b)[..|a + b| - 1] == a + b';
      assert (a + b)[|a + b| - 1] == b[|b| - 1];
      calc {
        Concat(a + b);
        Concat(a + b') + last;
        { ConcatAppend(a, b'); }
        (Concat(a) + Concat(b')) + last;
        Concat(a) + (Concat(b') + last);
      }
    }
  }

  /** The text of a non-empty document ends with the blank line of its last page. */
  lemma ConcatEndsWithBreak(pages: seq<seq<string>>)
    requires |pages| > 0
    ensures |Concat(pages)| >= |PageBreak| && Concat(pages)[|Concat(pages)| - |PageBreak|..] == PageBreak
  {
  }

  /** A page between two runs of pages contributes its text and one blank line between theirs. */
  lemma ConcatAround(before: seq<seq<string>>, page: seq<string>, after: seq<seq<string>>)
    ensures Concat(before + [page] + after) == Concat(before) + PageText(page) + PageBreak + Concat(after)
  {
    var upTo := before + [page];
    assert upTo[..|upTo| - 1] == before;
    ConcatAppend(upTo, after);
  }

  /** Page `k` (0-based) contributes its text and one blank line, after every earlier page and before every later one. */
  lemma PageInOrder(pages: seq<seq<string>>, k: nat)
    requires k < |pages|
    ensures Concat(pages) == Concat(pages[..k]) + PageText(pages[k]) + PageBreak + Concat(pages[k + 1..])
  {
    SplitAt(pages, k);
    ConcatAround(pages[..k], pages[k], pages[k + 1..]);
  }

  lemma SplitAt<T>(s: seq<T>, k: nat)
    requires k < |s|
    ensures s == s[..k] + [s[k]] + s[k + 1..]
  {
  }

  /** Every page was delivered. */
  predicate AllReadable(pages: seq<Page>) {
    forall k :: 0 <= k < |pages| ==> pages[k].Page?
  }

  /** The item strings of every page, in page order. */
  function PageItems(pages: seq<Page>): (items: seq<seq<string>>)
    requires AllReadable(pages)
    ensures |items| == |pages|
    ensures forall k :: 0 <= k < |pages| ==> items[k] == pages[k].items
  {
    seq(|pages|, k requires 0 <= k < |pages| => pages[k].items)
  }

  /** Reading page `n` after pages 1..n-1 appends that page's block to the text read so far. */
  lemma ReadOneMorePage(pages: seq<Page>, n: nat)
    requires n < |pages| && AllReadable(pages[..n]) && pages[n].Page?
    ensures AllReadable(pages[..n + 1])
    ensures Concat(PageItems(pages[..n + 1])) ==
      Concat(PageItems(pages[..n])) + PageText(pages[n].items) + PageBreak
  {
    var longer := PageItems(pages[..n + 1]);
    assert longer[..n] == PageItems(pages[..n]);
    assert longer[n] == pages[n].items;
  }

  /**
   * The `try` block of the PDF `onload` handler: `fullText` is built from pages 1..numPages;
   * the first page that cannot be read aborts the whole document, so no partial text is returned.
   */
  method AssemblePdfText(doc: PdfDocument) returns (text: Option<string>)
    ensures text.Some? <==> doc.Opened? && AllReadable(doc.pages)
    ensures text.Some? ==> text.value == Concat(PageItems(doc.pages))
  {
    if doc.OpenFailed? {
      return None;
    }
    var pages := doc.pages;
    var numPages := |pages|;
    var fullText := "";
    var i := 1;
    while i <= numPages
      invariant 1 <= i <= numPages + 1
      invariant AllReadable(pages[..i - 1])
      invariant fullText == Concat(PageItems(pages[..i - 1]))
    {
      match pages[i - 1]
      case PageFailed =>
        return None;
      case Page(items) =>
        ReadOneMorePage(pages, i - 1);
        fullText := fullText + PageText(items) + PageBreak;
      i := i + 1;
    }
    assert pages[..numPages] == pages;
    return Some(fullText);
  }

  // ---------------------------------------------------------------------------------------
  // The component's state
  // ---------------------------------------------------------------------------------------

  /** One call made to `onUpload(content, fileName)`. */
  datatype Upload = Upload(content: string, title: string)

  /** A `FileReader` started by the component and not yet settled, with the file it reads. */
  datatype Reader = TextRead(fileName: string) | PdfRead(fileName: string)

  /** `s` without its element at `k`. */
  function Without<T>(s: seq<T>, k: nat): (r: seq<T>)
    requires k < |s|
    ensures |r| == |s| - 1
    ensures forall j :: 0 <= j < k ==> r[j] == s[j]
    ensures forall j :: k <= j < |r| ==> r[j] == s[j + 1]
  {
    s[..k] + s[k + 1..]
  }

  class FileUpload {
    /** The error line under the drop zone; `None` is `null`. */
    var error: Option<string>
    /** Whether the spinner shows and the file input is disabled. */
    var isReading: bool
    /** The readers in flight, oldest first. */
    var readers: seq<Reader>
    /** The calls made to `onUpload`, in order. */
    var uploads: seq<Upload>

    /** The spinner only shows while some read is in flight. */
    predicate Valid()
      reads this
    {
      isReading ==> |readers| > 0
    }

    /** The freshly mounted component. */
    constructor ()
      ensures Valid()
      ensures error == None && !isReading && readers == [] && uploads == []
    {
      error := None;
      isReading := false;
      readers := [];
      uploads := [];
    }

    /** The state `processFile(file)` leaves, against the state before it. */
    twostate predicate Processed(file: FileInfo, pdfLibraryLoaded: bool)
      reads this
    {
      && uploads == old(uploads)
      && match Route(file.mimeType)
        case PlainText =>
          error == None && isReading && readers == old(readers) + [TextRead(file.name)]
        case Pdf =>
          if pdfLibraryLoaded then
            error == None && isReading && readers == old(readers) + [PdfRead(file.name)]
          else
            error == Some(PdfLibraryMissingError) && isReading == old(isReading) && readers == old(readers)
        case Unsupported =>
          error == Some(UnsupportedTypeError) && isReading == old(isReading) && readers == old(readers)
    }

    /**
     * `processFile`: clears the error, then starts a text read, starts a PDF read (when the
     * PDF library is loaded), or reports the unsupported type. It never calls `onUpload` itself.
     */
    method ProcessFile(file: FileInfo, pdfLibraryLoaded: bool)
      requires Valid()
      modifies this
      ensures Valid()
      ensures Processed(file, pdfLibraryLoaded)
    {
      error := None;
      match Route(file.mimeType)
      case PlainText =>
        ReadTxtFile(file);
      case Pdf =>
        ReadPdfFile(file, pdfLibraryLoaded);
      case Unsupported =>
        error := Some(UnsupportedTypeError);
    }

    /** `readTxtFile`, up to `readAsText`: the spinner shows and a text read is in flight. */
    method ReadTxtFile(file: FileInfo)
      requires Valid()
      modifies this
      ensures Valid()
      ensures isReading && readers == old(readers) + [TextRead(file.name)]
      ensures error == old(error) && uploads == old(uploads)
    {
      isReading := true;
      readers := readers + [TextRead(file.name)];
    }

    /** `readPdfFile`, up to `readAsArrayBuffer`: without the PDF library it only reports the error. */
    method ReadPdfFile(file: FileInfo, pdfLibraryLoaded: bool)
      requires Valid()
      modifies this
      ensures Valid()
      ensures uploads == old(uploads)
      ensures !pdfLibraryLoaded ==>
        error == Some(PdfLibraryMissingError) && isReading == old(isReading) && readers == old(readers)
      ensures pdfLibraryLoaded ==>
        error == old(error) && isReading && readers == old(readers) + [PdfRead(file.name)]
    {
      if !pdfLibraryLoaded {
        error := Some(PdfLibraryMissingError);
        return;
      }
      isReading := true;
      readers := readers + [PdfRead(file.name)];
    }

    /** The `onChange` handler of the file input: the first chosen file, if any; a disabled input delivers nothing. */
    method HandleFileChange(file: Option<FileInfo>, pdfLibraryLoaded: bool)
      requires Valid()
      modifies this
      ensures Valid()
      ensures (file.None? || old(isReading)) ==>
        error == old(error) && isReading == old(isReading) && readers == old(readers) && uploads == old(uploads)
      ensures file.Some? && !old(isReading) ==> Processed(file.value, pdfLibraryLoaded)
    {
      if file.Some? && !isReading {
        ProcessFile(file.value, pdfLibraryLoaded);
      }
    }

    /** The `onDrop` handler of the drop zone: the drop zone is never disabled, so a drop can start a read while another is in flight. */
    method HandleDrop(file: Option<FileInfo>, pdfLibraryLoaded: bool)
      requires Valid()
      modifies this
      ensures Valid()
      ensures file.None? ==>
        error == old(error) && isReading == old(isReading) && readers == old(readers) && uploads == old(uploads)
      ensures file.Some? ==> Processed(file.value, pdfLibraryLoaded)
    {
      if file.Some? {
        ProcessFile(file.value, pdfLibraryLoaded);
      }
    }

    /** The text reader's `onload`: the read text goes to `onUpload` unchanged, titled with the file name. */
    method TextLoaded(k: nat, text: string)
      requires Valid() && k < |readers| && readers[k].TextRead?
      modifies this
      ensures Valid()
      ensures uploads == old(uploads) + [Upload(text, old(readers)[k].fileName)]
      ensures !isReading && error == old(error) && readers == Without(old(readers), k)
    {
      uploads := uploads + [Upload(text, readers[k].fileName)];
      isReading := false;
      readers := Without(readers, k);
    }

    /**
     * The PDF reader's `onload`: on a readable document the assembled text goes to `onUpload`;
     * otherwise the PDF error is shown and `onUpload` is not called. Either way (`finally`)
     * the spinner stops.
     */
    method PdfLoaded(k: nat, doc: PdfDocument)
      requires Valid() && k < |readers| && readers[k].PdfRead?
      modifies this
      ensures Valid()
      ensures !isReading && readers == Without(old(readers), k)
      ensures doc.Opened? && AllReadable(doc.pages) ==>
        uploads == old(uploads) + [Upload(Concat(PageItems(doc.pages)), old(readers)[k].fileName)]
        && error == old(error)
      ensures !(doc.Opened? && AllReadable(doc.pages)) ==>
        uploads == old(uploads) && error == Some(PdfUnreadableError)
    {
      var fullText := AssemblePdfText(doc);
      if fullText.Some? {
        uploads := uploads + [Upload(fullText.value, readers[k].fileName)];
      } else {
        error := Some(PdfUnreadableError);
      }
      isReading := false;
      readers := Without(readers, k);
    }

    /** Either reader's `onerror`: the read error is shown, nothing is uploaded, the spinner stops. */
    method ReadFailed(k: nat)
      requires Valid() && k < |readers|
      modifies this
      ensures Valid()
      ensures error == Some(ReadFailedError) && !isReading
      ensures uploads == old(uploads) && readers == Without(old(readers), k)
    {
      error := Some(ReadFailedError);
      isReading := false;
      readers := Without(readers, k);
    }
  }
}
