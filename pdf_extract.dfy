/**
 * `extractPdf` (src/mastra/tools/pdf-ingest.ts:30-155) over already-loaded
 * pages: for page 1, 2, … it groups the page's text items into lines, appends
 * every line's text and a newline to the document text, and collects the
 * page's images; at the end the whole text is cleaned up once.
 */
module PdfExtract {
  import opened Strings
  import opened Whitespace
  import opened PageLayout
  import opened PageImages

  /** A loaded page: its text items in reading order and its operator list. */
  datatype Page = Page(items: seq<TextItem>, ops: seq<PaintOp>)

  datatype Extraction = Extraction(images: seq<ExtractedImage>, text: string)

  /** The document text before clean-up: every page's raw text, in page order. */
  function RawText(pages: seq<Page>): string
  {
    if pages == [] then "" else RawText(pages[..|pages| - 1]) + RawPageText(pages[|pages| - 1].items)
  }

  /** The images of page number `p`, whose image objects resolve through `resolve(p, _)`. */
  function PageImagesOf(p: nat, page: Page, resolve: (nat, string) -> RawImage): seq<ExtractedImage>
  {
    var names := PaintedNames(page.ops);
    seq(|names|, k requires 0 <= k < |names| => ImageOf(p, names[k], resolve(p, names[k])))
  }

  /** The images of all pages, in page order; pages are numbered from 1. */
  function DocumentImages(pages: seq<Page>, resolve: (nat, string) -> RawImage): seq<ExtractedImage>
  {
    if pages == [] then []
    else DocumentImages(pages[..|pages| - 1], resolve) + PageImagesOf(|pages|, pages[|pages| - 1], resolve)
  }

  /** The item strings of all pages run together, in order. */
  function DocumentItemsText(pages: seq<Page>): string
  {
    if pages == [] then "" else DocumentItemsText(pages[..|pages| - 1]) + ItemsText(pages[|pages| - 1].items)
  }

  /** The text part of one turn of the page loop: the page's lines, each followed by a newline. */
  method BuildPageText(items: seq<TextItem>) returns (pageText: string)
    ensures pageText == RawPageText(items)
  {
    var lines := GroupLines(items);
    pageText := "";
    for li := 0 to |lines|
      invariant pageText == PageText(lines[..li])
    {
      var lineText := BuildLineText(lines[li]);
      assert lines[..li + 1] == lines[..li] + [lines[li]];
      pageText := pageText + lineText + "\n";
    }
    assert lines[..|lines|] == lines;
  }

  /**
   * The page loop. The text is the clean-up of the pages' raw texts, so it is
   * clean and holds the non-whitespace characters of all item strings in
   * order; the images are every page's images in page order.
   */
  method ExtractPdf(pages: seq<Page>, resolve: (nat, string) -> RawImage) returns (result: Extraction)
    ensures result.text == Normalize(RawText(pages))
    ensures IsNormalized(result.text)
    ensures Strip(result.text) == Strip(DocumentItemsText(pages))
    ensures result.images == DocumentImages(pages, resolve)
  {
    var images: seq<ExtractedImage> := [];
    var text := "";
    for p := 1 to |pages| + 1
      invariant text == RawText(pages[..p - 1])
      invariant images == DocumentImages(pages[..p - 1], resolve)
    {
      var page := pages[p - 1];
      var pageText := BuildPageText(page.items);
      var pageImages := ExtractPageImages(p, page.ops, name => resolve(p, name));
      assert pageImages == PageImagesOf(p, page, resolve);
      assert pages[..p][..p - 1] == pages[..p - 1];
      assert RawText(pages[..p]) == RawText(pages[..p - 1]) + pageText;
      assert DocumentImages(pages[..p], resolve) == DocumentImages(pages[..p - 1], resolve) + pageImages;
      text := text + pageText;
      images := images + pageImages;
    }
    assert pages[..|pages|] == pages;
    NormalizeIsNormalized(text);
    ExtractedTextKeepsText(pages);
    text := Normalize(text);
    result := Extraction(images, text);
  }

  /** Grouping, joining and clean-up only ever add or remove whitespace. */
  lemma {:induction false} RawTextKeepsText(pages: seq<Page>)
    ensures Strip(RawText(pages)) == Strip(DocumentItemsText(pages))
  {
    if pages != [] {
      var init := pages[..|pages| - 1];
      var last := pages[|pages| - 1];
      RawTextKeepsText(init);
      RawPageKeepsText(last.items);
      StripAppend(RawText(init), RawPageText(last.items));
      StripAppend(DocumentItemsText(init), ItemsText(last.items));
    }
  }

  lemma ExtractedTextKeepsText(pages: seq<Page>)
    ensures Strip(Normalize(RawText(pages))) == Strip(DocumentItemsText(pages))
  {
    RawTextKeepsText(pages);
    NormalizeKeepsText(RawText(pages));
  }

  /** A document whose item strings are all whitespace yields the empty text. */
  lemma BlankDocumentHasNoText(pages: seq<Page>)
    requires Strip(DocumentItemsText(pages)) == ""
    ensures Normalize(RawText(pages)) == ""
  {
    ExtractedTextKeepsText(pages);
    NormalizeIsNormalized(RawText(pages));
    StripEmptyAllSpace(Normalize(RawText(pages)));
  }
}
