# TaakInstructies: batch PDF generation, modelled in Dafny

The tool reads a semicolon-separated table of records, each with a `name`
and a `pages` field, plus a PDF template. For every record it does three things:

- It parses `pages` (a comma-separated list of 1-based page numbers, read with
  `parseInt` and filtered for NaN).
- It extracts those template pages in that order (`extractPages`).
- It lays them out four to a portrait A4 sheet in a 2x2 grid, with the record's
  name centred at the top of the first sheet (`layoutFourPerSheet`).

`main` then writes the result. `runAll` does this for every record. It names
each output file `<rowNumber>_<namePart>.pdf` inside the output directory, or
uses the output argument itself when the table has exactly one record. In
every other case it concatenates the generated files into `merged.pdf`
(`concatenatePDFs`).

The model is split into modules:

- `Pdf` holds the document and file-system objects as classes whose methods
  update `pages` and `files` in place.
- `JsText` holds the JavaScript string built-ins the tool relies on: `trim`,
  `split`, `parseInt(s, 10)`, `String(n)` and `padStart`.
- `Extraction` models `extractPages`.
- `Composition` models `layoutFourPerSheet`.
- `PageTokens` models the parsing of the `pages` field.
- `Naming` models the row number, the name part and the filename.
- `Batch` models `main`, `concatenatePDFs` and `runAll`.

Each loop of the source is a method proved against a specification function:

| Method | Specification function |
|---|---|
| `ExtractPages` | `Extracted` |
| `LayoutFourPerSheet` | `Composed` |
| `ConcatenatePDFs` | `Merged` |
| `RunAll` | `Run` |

The properties the tool promises are proved about those functions as lemmas.

`pdf-extract-and-layout.js` and `pdf_extract_and_layout.js` contain the same
three functions, line for line. One set of members models both. In
`pdf_extract_and_layout.js`, `extractPages` is at lines 5-13,
`layoutFourPerSheet` at lines 15-56 and `main` at lines 58-79. The table
cites the first copy for the operations, and each copy for the lemmas.

Where the code and its documented intent differ, the model follows the code:

- The regular expression `^[0-9]+\s*-\s*` replaces the numeric prefix of a
  name with an underscore rather than removing it. So `03 - Jane Doe` gives
  `03__Jane_Doe.pdf`, with two underscores
  (`Naming.NumberedNameExample`).
- The merge branch is taken whenever the record count is not 1. So an empty
  table still writes a merged document. It has no pages of its own, and
  pdf-lib's `save()` gives it one blank default page (`Batch.RunEmpty`).
  The same happens to a record whose `pages` field reads no number, such as
  `""` (`Batch.RecordWithoutPages`); that blank page is then copied into the
  merged document.

## Model

| member | source | states |
|---|---|---|
| Pdf.Document.Create | pdf-extract-and-layout.js:14 | `PDFDocument.create()` gives a document with no pages |
| Pdf.Document.AddPage | pdf-extract-and-layout.js:17 | `addPage` appends exactly the given page at the end and changes nothing else |
| Pdf.Document.AddSheet | pdf-extract-and-layout.js:48 | `addPage([w, h])` appends one blank w-by-h sheet and returns its index |
| Pdf.Document.Draw | pdf-extract-and-layout.js:51-65 | `drawPage`/`drawText` appends one operation to the chosen sheet; every other page stays the same |
| Pdf.Saved | pdf-extract-and-layout.js:98 | a saved document is never empty, and a document with pages is saved as it is; one without pages gets pdf-lib's blank A4 default page |
| Pdf.Document.Save | pdf-extract-and-layout.js:98 | `save()` adds the default page to a document without pages and returns the pages that are written |
| Pdf.FileSystem.WriteFile | pdf-extract-and-layout.js:98-99 | writing a document creates or overwrites exactly that path |
| Pdf.FileSystem.ReadFile | index.js:49-50 | reading a path gives its document exactly when something was written there |
| JsText.LeadingSpaces | pdf-extract-and-layout.js:92 | counts exactly the run of whitespace at the start of the string |
| JsText.TrailingSpaces | pdf-extract-and-layout.js:92 | counts exactly the run of whitespace at the end of the string |
| JsText.Trim | pdf-extract-and-layout.js:92 | the trimmed token starts and ends with a non-space and is no longer than the token; a token without whitespace is unchanged |
| JsText.LeadingSpacesAt | pdf-extract-and-layout.js:92 | a whitespace run that ends at a non-space is exactly the leading run `trim` removes |
| JsText.TrailingSpacesAt | pdf-extract-and-layout.js:92 | a whitespace run after the last non-space is exactly the trailing run `trim` removes |
| JsText.TrimSpaces | pdf-extract-and-layout.js:92 | `trim` removes exactly the surrounding whitespace: text that neither starts nor ends with whitespace comes back whole whatever whitespace surrounds it |
| JsText.IndexOf | pdf-extract-and-layout.js:91 | finds the first occurrence of the separator |
| JsText.Split | pdf-extract-and-layout.js:91 | `split(",")` gives at least one piece, and no piece contains the separator |
| JsText.JoinSplit | pdf_extract_and_layout.js:70 | joining the pieces of a split with the separator gives back the original field |
| JsText.SplitJoin | pdf_extract_and_layout.js:70 | splitting a join of separator-free pieces gives back the pieces |
| JsText.DigitRun | index.js:76 | `/^\d+/` matches exactly the leading run of digits |
| JsText.ParseIntUnsigned | pdf-extract-and-layout.js:92 | `parseInt` of digits followed by a non-digit is the value of those digits; trailing text is ignored |
| JsText.ParseIntSigned | pdf_extract_and_layout.js:71 | after `+` the value is the digits' value, after `-` its negation |
| JsText.ParseIntNaN | pdf-extract-and-layout.js:92-93 | a token with no digit after the optional sign is NaN |
| JsText.ParseInt | pdf-extract-and-layout.js:92 | `parseInt(s, 10)`: skips leading whitespace, reads an optional sign and the leading digit run, NaN without digits; no contract of its own, its properties are `JsText.ParseIntUnsigned`, `JsText.ParseIntSigned`, `JsText.ParseIntNaN` and `JsText.PaddedDecimalRoundTrip` |
| JsText.NatToDecimal | index.js:78 | `String(n)` is a non-empty digit string without leading zeros whose decimal value is n |
| JsText.PadStart | index.js:78 | `padStart(len, c)` reaches length len with copies of c in front and never truncates |
| JsText.LeadingZeros | index.js:78 | zero padding keeps a digit string's value |
| JsText.PaddedDecimalRoundTrip | index.js:78 | `parseInt` reads `String(n).padStart(len, "0")` back as n |
| Extraction.FirstOutOfRange | pdf-extract-and-layout.js:15-16 | reports a page number outside 1..count exactly when one is requested; the reported number is requested and out of range |
| Extraction.FirstOutOfRangeIsFirst | pdf-extract-and-layout.js:15-16 | the reported number is the first bad one: every number requested before it is in range |
| Extraction.Extracted | pdf-extract-and-layout.js:15-18 | the pages `extractPages` copies, in request order; no contract of its own, its properties are `Extraction.ExtractedPages`, `Extraction.ExtractedAppend` and `Extraction.ExtractedIdentity`, and `Extraction.ExtractPages` is proved against it |
| Extraction.ExtractedPages | pdf-extract-and-layout.js:15-18 | one output page per requested number, and output page k is template page nums[k] (duplicates repeat) |
| Extraction.ExtractedAppend | pdf_extract_and_layout.js:8-11 | extracting a concatenated list extracts each part in turn |
| Extraction.ExtractedIdentity | pdf_extract_and_layout.js:8-11 | asking for pages 1..n in order gives the template back |
| Extraction.ExtractPages | pdf-extract-and-layout.js:12-20 | the loop copies the requested pages in order into a fresh document, or stops at the first page number the template lacks (`Extraction.FirstOutOfRangeIsFirst`) |
| Composition.Cell | pdf-extract-and-layout.js:35-56 | slot j's box is inset by 10 from the corner of its quarter: left for slots 0 and 2, right for 1 and 3, top for 0 and 1, bottom for 2 and 3; it lies strictly inside the A4 sheet and has the cell size |
| Composition.CellsDisjoint | pdf_extract_and_layout.js:25-32 | the four slots of the 2x2 grid do not overlap |
| Composition.Label | pdf-extract-and-layout.js:58-66 | the label is the name at size 24, horizontally centred and 25 points below the top |
| Composition.PlacementsSnoc | pdf-extract-and-layout.js:49-57 | drawing one more page of a group adds its placement in the next slot |
| Composition.ComposedSheetCount | pdf-extract-and-layout.js:47 | ceil(total/4) sheets: none for no pages, and just enough groups of four |
| Composition.ComposedSheet | pdf_extract_and_layout.js:34-54 | sheet k holds pages 4k.. in slots 0.., four on every sheet but the last, then the label on sheet 0 for a non-empty name |
| Composition.EveryPagePlaced | pdf-extract-and-layout.js:47-57 | page p lands in slot p mod 4 of sheet p div 4 |
| Composition.LabelOnlyOnFirstSheet | pdf_extract_and_layout.js:45-53 | only sheet 0 carries text, and only for a non-empty name |
| Composition.FirstSheetLabelled | pdf-extract-and-layout.js:58-66 | with at least one page and a non-empty name, the first sheet ends with the label |
| Composition.Composed | pdf-extract-and-layout.js:47-66 | the document `layoutFourPerSheet` builds; no contract of its own, its properties are `Composition.ComposedSheetCount`, `Composition.ComposedSheet`, `Composition.EveryPagePlaced`, `Composition.LabelOnlyOnFirstSheet` and `Composition.FirstSheetLabelled`, and `Composition.LayoutFourPerSheet` is proved against it |
| Composition.LayoutFourPerSheet | pdf-extract-and-layout.js:28-69 | the nested loops build exactly the composed document in a fresh document |
| PageTokens.TokenValue | pdf-extract-and-layout.js:92 | `parseInt(s.trim(), 10)` of one token; no contract of its own, its properties are `PageTokens.PaddedTokenValue` and the examples below |
| PageTokens.ParseTokens | pdf-extract-and-layout.js:92-93 | the values of the tokens that read as numbers, in order; no contract of its own, its properties are `PageTokens.ParseTokensSpec` and `PageTokens.ParseTokensAppend` |
| PageTokens.ParsePageList | pdf-extract-and-layout.js:90-93 | the page list of a `pages` field: split on `,`, then parsed token by token; no contract of its own, see `PageTokens.ParseTokensSpec` (with `JsText.JoinSplit`) and `PageTokens.FieldExample` |
| PageTokens.SurvivorsFrom | pdf-extract-and-layout.js:93 | the indices of the tokens that survive the NaN filter, increasing, including every token that reads as a number |
| PageTokens.ConsIncreasing | pdf-extract-and-layout.js:93 | a surviving index put in front of later ones keeps them increasing |
| PageTokens.ParseTokensFrom | pdf_extract_and_layout.js:71-72 | one number per surviving token, each the value of its token |
| PageTokens.ParseTokensSpec | pdf-extract-and-layout.js:90-93 | the page list holds exactly the values of the tokens that read as numbers, in token order |
| PageTokens.ParseTokensAppend | pdf-extract-and-layout.js:91-93 | the map and filter work token by token: parsing two runs of tokens concatenates their results |
| PageTokens.TokenExamples | pdf-extract-and-layout.js:92-93 | `" 2 "` reads 2, `"3a"` 3, `"+5"` 5, `"-2"` -2; `""` and `"x1"` are dropped |
| PageTokens.PaddedTokenValue | pdf-extract-and-layout.js:92 | digits with whitespace on either side read as their decimal value |
| PageTokens.PaddedExample | pdf-extract-and-layout.js:92 | `"1"`, `" 2"`, `" 3"` and `" 2 "` read as 1, 2, 3 and 2 |
| PageTokens.FieldExample | pdf-extract-and-layout.js:90-93 | the field `1, 2, 3` asks for pages 1, 2 and 3 |
| PageTokens.FieldSplit | pdf-extract-and-layout.js:91 | `"1, 2, 3".split(",")` is `["1", " 2", " 3"]` |
| PageTokens.FieldTokens | pdf-extract-and-layout.js:92-93 | the tokens `"1"`, `" 2"`, `" 3"` give 1, 2, 3 |
| PageTokens.TokenStep | pdf-extract-and-layout.js:92-93 | a token that reads as v puts v in front of what the rest gives |
| PageTokens.ThreeTokens | pdf-extract-and-layout.js:92-93 | three tokens that each read as a number give those numbers in order |
| PageTokens.TrailingTextExample | pdf-extract-and-layout.js:92 | the token `"3a"` reads as 3; the law for any digit run followed by a non-digit, after trimming, is `JsText.ParseIntUnsigned` |
| PageTokens.SignedExample | pdf-extract-and-layout.js:92 | the tokens `"+5"` and `"-2"` read as 5 and -2; the law for any sign followed by digits, after trimming, is `JsText.ParseIntSigned` |
| PageTokens.NoDigitExample | pdf-extract-and-layout.js:92-93 | the tokens `"x1"` and `""` are NaN and are dropped; the law for a trimmed token with no digit after the optional sign is `JsText.ParseIntNaN` |
| Naming.RowNumber | index.js:75-78 | the row number; no contract of its own, its properties are `Naming.RowNumberSpec` and `Naming.FilenameStartsWithRowNumber` |
| Naming.RowNumberSpec | index.js:75-78 | the row number is the name's whole leading digit run, else i+1 zero-padded to two digits, read back as i+1 |
| Naming.DashPrefix | index.js:80 | the length of the anchored `^[0-9]+\s*-\s*` match at the start of the name, or none; its contract only bounds the length, and `Naming.DashPrefixSpec` characterises it |
| Naming.DashPrefixSpec | index.js:80 | the anchored `^[0-9]+\s*-\s*` alternative matches exactly when the name starts with digits, optional whitespace, a dash and optional whitespace; the length found covers that shape up to the first non-space after the dash |
| Naming.DashPrefixOfShape | index.js:80 | any start of the name of that shape is found |
| Naming.DashPrefixFound | index.js:80 | the characters the match steps over have that shape and the match stops at a non-space |
| Naming.Sanitise | index.js:80 | the first replace: the dash prefix, tried once at index 0, becomes `_`, then every whitespace run becomes `_`; no contract of its own, its properties are `Naming.SanitiseKeepsVisible`, `Naming.ReplaceRun`, `Naming.ReplacePlain`, `Naming.ReplaceNoSpace` and `Naming.DashPrefixSpec` |
| Naming.ReplaceSpaces | index.js:80 | the `\s+` alternative from index i on; no contract of its own, its properties are `Naming.ReplaceRun`, `Naming.ReplaceAtRun`, `Naming.ReplacePlain`, `Naming.ReplaceNoSpace` and `Naming.ReplaceKeepsVisible` |
| Naming.ReplaceRun | index.js:80 | text without whitespace is kept as it is, and the whole whitespace run after it becomes exactly one underscore |
| Naming.ReplaceAtRun | index.js:80 | a whitespace run, however long, becomes one underscore |
| Naming.SpacesRunAt | index.js:80 | `\s+` takes the whole whitespace run |
| Naming.KeepSafe | index.js:81 | the second replace leaves only `[A-Za-z0-9_-]` and never lengthens |
| Naming.KeepSafeMembers | index.js:81 | a character is in the result exactly when it is in the input and safe: unsafe characters are deleted, safe ones kept |
| Naming.KeepSafeChar | index.js:81 | one character at a time: a safe character stays, an unsafe one is deleted |
| Naming.NamePart | index.js:79-81 | the name part contains only safe characters |
| Naming.KeepSafeOfSafe | index.js:81 | a string of safe characters passes the second replace unchanged |
| Naming.KeepSafeIdempotent | index.js:81 | the second replace is idempotent |
| Naming.KeepSafeAppend | index.js:81 | the second replace works character by character |
| Naming.ReplaceNoSpace | index.js:80 | no whitespace survives the first replace |
| Naming.NoSpaceCons | index.js:80 | a non-space put in front of a space-free string keeps it space-free |
| Naming.VisibleAppend | index.js:80 | the visible characters of a concatenation are those of each part |
| Naming.VisibleSkipSpaces | index.js:80 | a run of whitespace has no visible characters |
| Naming.ReplaceKeepsVisible | index.js:80 | the whitespace replacement keeps every character other than whitespace and underscores, in order (the exact rule, one underscore per run, is `Naming.ReplaceRun`) |
| Naming.SanitiseKeepsVisible | index.js:80 | the whole first replace leaves no whitespace; a dash prefix becomes one underscore followed by the replaced rest; apart from that, characters other than whitespace and underscores are kept in order |
| Naming.ReplacePlain | index.js:80 | text without whitespace passes the whitespace replacement unchanged |
| Naming.Filename | index.js:82 | `<rowNumber>_<namePart>.pdf`; no contract of its own, its properties are `Naming.FilenameStartsWithRowNumber`, `Naming.FilenameIsNotMerged` and `Naming.FilenamesDistinct` |
| Naming.FilenameStartsWithRowNumber | index.js:82 | the filename starts with exactly the row number |
| Naming.FilenameIsNotMerged | index.js:82 | no record's filename is `merged.pdf` |
| Naming.FilenamesDistinct | index.js:75-82 | records whose names do not start with a digit get distinct filenames |
| Naming.NumberedNameExample | index.js:75-82 | `03 - Jane Doe` at index 2 gives row number `03`, name part `_Jane_Doe` and filename `03__Jane_Doe.pdf` |
| Naming.UndashedNameExample | index.js:75-82 | `12abc` gives `12_12abc.pdf` |
| Naming.UnnumberedNameExample | index.js:75-82 | `Jan Smit!` at index 0 gives `01_Jan_Smit.pdf` |
| Naming.JanSmitSanitised | index.js:80 | the first replace turns `Jan Smit!` into `Jan_Smit!` |
| Batch.RecordDocument | pdf-extract-and-layout.js:88-97 | what `main` makes of one record: its page list, extracted and laid out, or the page number the template lacks; no contract of its own, its properties are `Batch.RecordDocumentSheets` and `Batch.GenerateRecord` |
| Batch.RecordDocumentSheets | pdf-extract-and-layout.js:88-97 | a record's document puts its requested page p, in order, in slot p mod 4 of sheet p div 4, on ceil(n/4) sheets |
| Batch.GenerateRecord | pdf-extract-and-layout.js:79-100 | `main` saves the record's document to outputPath, or writes nothing and reports the page number the template lacks |
| Batch.RecordWithoutPages | pdf-extract-and-layout.js:90-98 | a record whose page list reads no number gives a document with no sheets, saved as one blank default page |
| Batch.Merged | index.js:46-56 | the pages `concatenatePDFs` writes, or the first missing file; no contract of its own, its properties are `Batch.MergedSpec`, `Batch.MergedAppend` and `Batch.MergedDocuments`, and `Batch.ConcatenatePDFs` is proved against it |
| Batch.MergedSpec | index.js:46-56 | merging fails exactly when some path holds no file; otherwise the merged page count is the sum of the files' page counts |
| Batch.MergedAppend | index.js:48-53 | merging two runs of paths concatenates their merges, and the first failure wins |
| Batch.ConcatenatePDFs | index.js:46-56 | the loops copy every page of every file in order onto a fresh document, which is saved to outputFile; a missing file aborts before anything is written |
| Batch.OutputPath | index.js:83 | outputArg for a single record, otherwise `<outputArg>/<filename>`; no contract of its own, its properties are `Batch.PathsShape`, `Batch.OutputPathIsNotMerged` and `Batch.PathsDistinct` |
| Batch.RecordPath | index.js:75-83 | where record k is written; see `Batch.OutputPath` |
| Batch.MergePath | index.js:96-98 | `<outputArg>/merged.pdf` when outputArg is a directory, else outputArg; no contract of its own, see `Batch.OutputPathIsNotMerged` and `Batch.RunMergedContents` |
| Batch.PathsShape | index.js:67-83 | one record is written to outputArg itself; with any other count each record goes under `<outputArg>/` and never where a directory run puts `merged.pdf` |
| Batch.Generate | index.js:72-92 | the state after the loop has handled the first n records; no contract of its own, its properties are `Batch.GenerateFailure`, `Batch.GeneratePaths`, `Batch.GeneratedDocuments`, `Batch.GenerateStable` and `Batch.LaterRecordOverwrites` |
| Batch.RunFrom | index.js:72-101 | the loop followed by the merge; no contract of its own, its properties are `Batch.RunFromFails`, `Batch.RunFromSucceeds` and `Batch.RunFromMerged` |
| Batch.Run | index.js:58-102 | the whole of `runAll`; no contract of its own, its properties are `Batch.RunSingle`, `Batch.RunEmpty` and `Batch.RunMergedContents`, and `Batch.RunAll` is proved against it |
| Batch.GenerateFailure | index.js:72-92 | the loop fails exactly when some record fails, at the first one, with the earlier paths generated |
| Batch.GeneratePaths | index.js:90 | when every record succeeds, the generated list is the paths in record order and each holds a file |
| Batch.GeneratedDocuments | index.js:84-90 | record k's file holds its saved document unless a later record wrote the same path |
| Batch.GenerateStable | index.js:84-89 | after a failure the later records change nothing |
| Batch.LaterRecordOverwrites | index.js:75-90 | two records with the same path: the later saved document wins |
| Batch.MergedDocuments | index.js:46-56 | merging files that hold given documents yields their pages in path order |
| Batch.RunFromFails | index.js:72-101 | a failing run ends at the first failing record with its error, keeps the earlier files and merges nothing |
| Batch.RunFromSucceeds | index.js:94-101 | a successful run generates every path in order; a merging run writes a merged document whose page count is the sum of the files' page counts, or 1 (the default page) when that sum is 0 |
| Batch.RunFromMerged | index.js:94-101 | a merging run over distinct paths writes the saved documents one after another, saved in turn, and every other record file keeps its saved document |
| Batch.GenerateStep | index.js:84-90 | one pass of the loop saves the record's document to its path and appends the path, or ends the run with its error |
| Batch.RunAfterLoop | index.js:94-101 | after a completed loop, a single-record run stops and any other run merges the generated files |
| Batch.RunSingle | index.js:67 | one record: its saved document goes to outputArg itself and nothing is merged |
| Batch.RunEmpty | index.js:46-99 | an empty table still goes down the merge branch, and the merged file holds only the blank default page that `save()` adds |
| Batch.RunMergedContents | index.js:94-101 | several successful records on distinct paths: the merged file is their saved documents in table order (no extra page when there is at least one record), and each record file keeps its own saved document, whether or not outputArg is a directory |
| Batch.OutputPathIsNotMerged | index.js:83-98 | a record file in the directory is never the merged file |
| Batch.PathsDistinct | index.js:75-83 | records whose names do not start with a digit get distinct paths |
| Batch.RunStep | index.js:75-90 | one pass of the loop of `runAll`: computes record i's row number, name part and output path, and the state after it is `Generate` of i+1 records, or a failure that is the outcome of the whole `RunFrom` |
| Batch.GenerateAll | index.js:72-92 | the loop of `runAll` ends in `Generate` of all records, or in the failed run's final state |
| Batch.RunAll | index.js:58-102 | `runAll` ends in exactly the files, generated list and failure that `Run` specifies |

## Left out

- CSV parsing (`csv-parse`) is not modelled. A record is its `name` and `pages` columns, and the table is a sequence of records.
- `main` re-reads the CSV and the template for every record. The model passes the parsed records and the template's pages instead.
- PDF bytes and pdf-lib internals are not modelled: the byte format, embedding, fonts and colours. A template page is known by its identity. Of `save()`, only the default page it adds to a document without pages is modelled (`Pdf.Saved`); loading a saved file gives back the saved pages.
- Sheet coordinates and sizes are exact reals, not IEEE doubles.
- `font.widthOfTextAtSize` is the parameter `widthOf`. The text colour (black) and the font are not recorded in the drawing operation.
- `fs.ensureDir` (index.js:68-70) is not modelled.
- `fs.lstatSync(outputArg).isDirectory()` is the boolean parameter `isDirectory`.
- Asynchrony, `console.log`, the command-line checks and the `process.argv` entry points are not modelled.
- Failures of the library or the disk are not modelled: unreadable or corrupt PDFs, failed writes, and a label the font cannot encode. Helvetica-Bold with WinAnsi encoding has no glyph for characters such as `Ł` or `ĳ`, so `widthOfTextAtSize` and `drawText` (pdf-extract-and-layout.js:58-66) throw for such a name and the whole batch stops; the model's `widthOf` is total and that record's file is written. The errors modelled are a requested page the template lacks and a file missing at merge time. Each ends the run, as the uncaught rejection does.
- Whitespace for `trim` and `\s` is ASCII only. Unicode spaces are not modelled.
- JsText.ParseIntSigned: `parseInt("-0")` is JavaScript's negative zero, modelled as 0. Either way it names no page.
- PageTokens.ParseTokensSpec: page numbers are unbounded integers. The loss of precision of JavaScript numbers for very long digit strings is not modelled.
- Batch.GenerateRecord: requires `rowIndex < |records|`. `runAll` always passes an index in range; an out-of-range index would make `records[rowIndex]` undefined in `main`.
- Naming.NamePart: `name` is always a string. A record without a `name` column would throw in `runAll`.
