/**
 * The part of the PDF library and of the file system that the tool relies on.
 * Page content is not modelled: a page of a loaded template is known only by
 * its identity, and a sheet made by the tool records what was drawn on it.
 * Saving a document adds pdf-lib's default blank page when it has none;
 * loading a saved file gives back the saved sequence of pages.
 */
module Pdf {
  import opened Options

  datatype Page =
    | Imported(id: nat)
    | Sheet(width: real, height: real, ops: seq<Op>)

  /** A drawing operation on a sheet: an embedded page stretched into a box,
      or a line of text at a position and font size. */
  datatype Op =
    | DrawPage(page: Page, x: real, y: real, width: real, height: real)
    | DrawText(text: string, x: real, y: real, size: real)

  /** The page `save()` adds to a document without pages: a blank sheet of
      pdf-lib's default size, A4 at 595.28 by 841.89 points. */
  const DefaultPage: Page := Sheet(595.28, 841.89, [])

  /** The pages of a document once saved: a saved document is never empty,
      and a document that has pages is saved as it is. */
  function Saved(pages: seq<Page>): (r: seq<Page>)
    ensures r != [] && (pages != [] ==> r == pages)
    ensures pages == [] ==> r == [DefaultPage]
  {
    if pages == [] then [DefaultPage] else pages
  }

  /** An in-memory document; `pages` is what `getPages()` returns. */
  class Document {
    var pages: seq<Page>

    /** `PDFDocument.create()`: a document with no pages. */
    constructor Create()
      ensures pages == []
    {
      pages := [];
    }

    /** `addPage(page)`: appends a (copied) page. */
    method AddPage(p: Page)
      modifies this
      ensures pages == old(pages) + [p]
    {
      pages := pages + [p];
    }

    /** `addPage([width, height])`: appends a blank sheet and returns its index. */
    method AddSheet(width: real, height: real) returns (k: nat)
      modifies this
      ensures pages == old(pages) + [Sheet(width, height, [])]
      ensures k == |old(pages)|
    {
      k := |pages|;
      pages := pages + [Sheet(width, height, [])];
    }

    /** `drawPage`/`drawText` on the sheet at index k: the operation is
        appended to that sheet and every other page is left as it was. */
    method Draw(k: nat, op: Op)
      requires k < |pages| && pages[k].Sheet?
      modifies this
      ensures |pages| == |old(pages)|
      ensures pages == old(pages)[k := old(pages)[k].(ops := old(pages)[k].ops + [op])]
    {
      pages := pages[k := pages[k].(ops := pages[k].ops + [op])];
    }

    /** `save()`: with the default `addDefaultPage` option, a document with
        no pages first gets the default page; the result is the document's
        pages as they are written to a file. */
    method Save() returns (bytes: seq<Page>)
      modifies this
      ensures pages == Saved(old(pages))
      ensures bytes == pages
    {
      if pages == [] {
        pages := pages + [DefaultPage];
      }
      bytes := pages;
    }
  }

  /** The files the tool reads and writes, by path. */
  class FileSystem {
    var files: map<string, seq<Page>>

    constructor Create(initial: map<string, seq<Page>>)
      ensures files == initial
    {
      files := initial;
    }

    /** `fs.writeFile(path, bytes)`: creates or overwrites one file. */
    method WriteFile(path: string, doc: seq<Page>)
      modifies this
      ensures files == old(files)[path := doc]
    {
      files := files[path := doc];
    }

    /** `PDFDocument.load(fs.readFile(path))`: the pages of the file, or
        None when nothing was written at that path. */
    method ReadFile(path: string) returns (doc: Option<seq<Page>>)
      ensures path in files <==> doc.Some?
      ensures doc.Some? ==> doc.value == files[path]
    {
      if path in files {
        doc := Some(files[path]);
      } else {
        doc := None;
      }
    }
  }
}
