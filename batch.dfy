/**
 * The batch run of pdf-extract-and-layout.js and index.js: `main` turns one
 * record into a laid-out document written to its output path,
 * `concatenatePDFs` merges written files in order, and `runAll` drives both
 * over every record of the table.
 */
module Batch {
  import opened Options
  import opened Pdf
  import opened JsText
  import opened Extraction
  import opened Composition
  import opened PageTokens
  import opened Naming

  /** One row of the table: its `name` and `pages` columns. */
  datatype Record = Record(name: string, pages: string)

  type Files = map<string, seq<Page>>

  /** The document `main` writes for a record: the requested template pages
      laid out four per sheet under the record's name, whose width in the
      label font is nameWidth; or the page number the template lacks. */
  function RecordDocument(template: seq<Page>, rec: Record, nameWidth: real): Result<seq<Page>> {
    var nums := ParsePageList(rec.pages);
    match FirstOutOfRange(nums, |template|)
    case Some(n) => Err(PageIndexError(n))
    case None => Ok(Composed(Extracted(template, nums), rec.name, nameWidth))
  }

  /** A record's document has one sheet per four requested pages, and its
      pages are the requested template pages in the requested order. */
  lemma RecordDocumentSheets(template: seq<Page>, rec: Record, nameWidth: real)
    requires RecordDocument(template, rec, nameWidth).Ok?
    ensures var nums := ParsePageList(rec.pages);
      var doc := RecordDocument(template, rec, nameWidth).value;
      && AllInRange(nums, |template|)
      && 4 * |doc| - 4 < |nums| <= 4 * |doc|
      && forall p :: 0 <= p < |nums| ==>
           p % 4 < |doc[p / 4].ops| && doc[p / 4].ops[p % 4] == Place(template[nums[p] - 1], p % 4)
  {
    var nums := ParsePageList(rec.pages);
    var extracted := Extracted(template, nums);
    ExtractedPages(template, nums);
    ComposedSheetCount(extracted, rec.name, nameWidth);
    forall p | 0 <= p < |nums|
      ensures p % 4 < |Composed(extracted, rec.name, nameWidth)[p / 4].ops|
      ensures Composed(extracted, rec.name, nameWidth)[p / 4].ops[p % 4] == Place(template[nums[p] - 1], p % 4)
    {
      EveryPagePlaced(extracted, rec.name, nameWidth, p);
    }
  }

  /** `main(csvPath, pdfPath, outputPath, rowIndex)`: parse the row's page
      list, extract those pages from the template, lay them out under the
      row's name, save it and write the saved pages to outputPath. A failed
      extraction writes nothing. */
  method GenerateRecord(fs: FileSystem, template: seq<Page>, records: seq<Record>, outputPath: string,
                        rowIndex: nat, widthOf: string -> real) returns (err: Option<Error>)
    requires rowIndex < |records|
    modifies fs
    ensures match RecordDocument(template, records[rowIndex], widthOf(records[rowIndex].name))
      case Ok(d) => err.None? && fs.files == old(fs.files)[outputPath := Saved(d)]
      case Err(e) => err == Some(e) && fs.files == old(fs.files)
  {
    var row := records[rowIndex];
    var name := row.name;
    var numbers := ParsePageList(row.pages);
    var extracted, bad := ExtractPages(template, numbers);
    if bad.Some? {
      return Some(PageIndexError(bad.value));
    }
    var laidOut := LayoutFourPerSheet(extracted, name, widthOf(name));
    var outBytes := laidOut.Save();
    fs.WriteFile(outputPath, outBytes);
    err := None;
  }

  /** The pages of the files at `paths`, one file after another, or the
      first path that holds no file. */
  function Merged(files: Files, paths: seq<string>): Result<seq<Page>> {
    if paths == [] then Ok([])
    else if paths[0] !in files then Err(FileMissing(paths[0]))
    else match Merged(files, paths[1..])
      case Err(e) => Err(e)
      case Ok(rest) => Ok(files[paths[0]] + rest)
  }

  /** Total number of pages in the files at `paths`. */
  function PageTotal(files: Files, paths: seq<string>): nat
    requires forall k :: 0 <= k < |paths| ==> paths[k] in files
  {
    if paths == [] then 0 else |files[paths[0]]| + PageTotal(files, paths[1..])
  }

  /** Merging fails exactly when some path holds no file; otherwise the
      merged document has as many pages as all the files together. */
  lemma {:induction false} MergedSpec(files: Files, paths: seq<string>)
    ensures Merged(files, paths).Ok? <==> forall k :: 0 <= k < |paths| ==> paths[k] in files
    ensures Merged(files, paths).Ok? ==> |Merged(files, paths).value| == PageTotal(files, paths)
  {
    if paths != [] {
      MergedSpec(files, paths[1..]);
      if paths[0] in files && !Merged(files, paths[1..]).Ok? {
        var k :| 0 <= k < |paths[1..]| && paths[1..][k] !in files;
        assert paths[k + 1] !in files;
      }
    }
  }

  /** Merging a list of paths made of two parts merges each part and
      concatenates the results; a failure in the first part comes first. */
  lemma {:induction false} MergedAppend(files: Files, a: seq<string>, b: seq<string>)
    ensures Merged(files, a + b) ==
      match Merged(files, a)
      case Err(e) => Err(e)
      case Ok(x) => (match Merged(files, b) case Err(e) => Err(e) case Ok(y) => Ok(x + y))
  {
    if a == [] {
      assert a + b == b;
      match Merged(files, b)
      case Err(e) =>
      case Ok(y) => assert [] + y == y;
    } else {
      assert (a + b)[1..] == a[1..] + b;
      assert (a + b)[0] == a[0];
      MergedAppend(files, a[1..], b);
      if a[0] in files {
        match Merged(files, a[1..])
        case Err(e) =>
        case Ok(x) =>
          match Merged(files, b)
          case Err(e) =>
          case Ok(y) =>
            assert files[a[0]] + (x + y) == (files[a[0]] + x) + y;
      }
    }
  }

  /** The files and the failure after merging `paths` into outputFile: the
      merged document saved there, or the files untouched and the first
      missing path reported. */
  function MergeFiles(files: Files, paths: seq<string>, outputFile: string): (Files, Option<Error>) {
    match Merged(files, paths)
    case Ok(d) => (files[outputFile := Saved(d)], None)
    case Err(e) => (files, Some(e))
  }

  /** `concatenatePDFs(pdfPaths, outputFile)`: read each file in turn, copy
      all its pages onto a fresh document, then save that document and write
      it. A missing file aborts before anything is written. */
  method ConcatenatePDFs(fs: FileSystem, pdfPaths: seq<string>, outputFile: string) returns (err: Option<Error>)
    modifies fs
    ensures (fs.files, err) == MergeFiles(old(fs.files), pdfPaths, outputFile)
  {
    var mergedPdf := new Document.Create();
    var i := 0;
    while i < |pdfPaths|
      invariant 0 <= i <= |pdfPaths|
      invariant fs.files == old(fs.files)
      invariant Merged(fs.files, pdfPaths[..i]) == Ok(mergedPdf.pages)
    {
      var path := pdfPaths[i];
      assert pdfPaths[..i + 1] == pdfPaths[..i] + [path];
      assert pdfPaths == pdfPaths[..i] + pdfPaths[i..];
      assert pdfPaths[i..] == [path] + pdfPaths[i + 1..];
      var pdf := fs.ReadFile(path);
      MergedAppend(fs.files, pdfPaths[..i], [path]);
      MergedAppend(fs.files, pdfPaths[..i], pdfPaths[i..]);
      if pdf.None? {
        return Some(FileMissing(path));
      }
      var copiedPages := pdf.value;
      ghost var before := mergedPdf.pages;
      var j := 0;
      while j < |copiedPages|
        invariant 0 <= j <= |copiedPages|
        invariant mergedPdf.pages == before + copiedPages[..j]
        invariant fs.files == old(fs.files)
      {
        mergedPdf.AddPage(copiedPages[j]);
        assert copiedPages[..j + 1] == copiedPages[..j] + [copiedPages[j]];
        j := j + 1;
      }
      assert copiedPages[..j] == copiedPages;
      assert Merged(fs.files, [path]) == Ok(copiedPages) by {
        assert [path][1..] == [];
        assert copiedPages + [] == copiedPages;
      }
      i := i + 1;
    }
    assert pdfPaths[..i] == pdfPaths;
    var mergedBytes := mergedPdf.Save();
    fs.WriteFile(outputFile, mergedBytes);
    err := None;
  }

  /** Where record i is written: outputArg itself when the table has a
      single record, otherwise `<outputArg>/<filename>`. */
  function OutputPath(outputArg: string, isSingle: bool, name: string, i: nat): string {
    if isSingle then outputArg else outputArg + "/" + Filename(name, i)
  }

  /** Where the merged document goes: `<outputArg>/merged.pdf` when
      outputArg is a directory at that point, otherwise outputArg itself. */
  function MergePath(outputArg: string, isDirectory: bool): string {
    if isDirectory then outputArg + "/merged.pdf" else outputArg
  }

  /** The state of a run: the files on disk, the paths written so far in
      order (`generatedFiles`), and the failure that stopped it, if any. */
  datatype RunState = RunState(files: Files, generated: seq<string>, failure: Option<Error>)

  /** What `main` gives for each record, in table order. */
  function Outcomes(template: seq<Page>, records: seq<Record>, widthOf: string -> real): (r: seq<Result<seq<Page>>>)
    ensures |r| == |records|
    ensures forall k {:trigger RecordDocument(template, records[k], widthOf(records[k].name))} ::
      0 <= k < |r| ==> r[k] == RecordDocument(template, records[k], widthOf(records[k].name))
  {
    seq(|records|, k requires 0 <= k < |records| => RecordDocument(template, records[k], widthOf(records[k].name)))
  }

  /** Where `runAll` writes record k. */
  function RecordPath(records: seq<Record>, outputArg: string, k: nat): string
    requires k < |records|
  {
    OutputPath(outputArg, |records| == 1, records[k].name, k)
  }

  /** Where `runAll` writes each record, in table order. */
  function Paths(records: seq<Record>, outputArg: string): (r: seq<string>)
    ensures |r| == |records|
    ensures forall k {:trigger RecordPath(records, outputArg, k)} :: 0 <= k < |r| ==> r[k] == RecordPath(records, outputArg, k)
  {
    seq(|records|, k requires 0 <= k < |records| => RecordPath(records, outputArg, k))
  }

  /** The state after the loop of `runAll` has handled the first n records,
      record k giving outcomes[k] and being written to paths[k]: each
      document is saved to its path as soon as it exists, and the first
      failure ends the loop with the earlier files left in place. */
  function Generate(files: Files, outcomes: seq<Result<seq<Page>>>, paths: seq<string>, n: nat): RunState
    requires n <= |outcomes| == |paths|
  {
    if n == 0 then RunState(files, [], None)
    else
      var prev := Generate(files, outcomes, paths, n - 1);
      if prev.failure.Some? then prev
      else match outcomes[n - 1]
        case Err(e) => prev.(failure := Some(e))
        case Ok(d) => RunState(prev.files[paths[n - 1] := Saved(d)], prev.generated + [paths[n - 1]], None)
  }

  /** The state after the whole run: every record's file, then, unless the
      run failed or is a single-record run, the merge of the generated
      files written to mergePath. */
  function RunFrom(files: Files, outcomes: seq<Result<seq<Page>>>, paths: seq<string>, single: bool,
                   mergePath: string): RunState
    requires |outcomes| == |paths|
  {
    var g := Generate(files, outcomes, paths, |paths|);
    if g.failure.Some? || single then g
    else
      var (merged, failure) := MergeFiles(g.files, g.generated, mergePath);
      RunState(merged, g.generated, failure)
  }

  /** The state after `runAll` on a table of records. */
  function Run(files: Files, template: seq<Page>, records: seq<Record>, outputArg: string,
               widthOf: string -> real, isDirectory: bool): RunState
  {
    RunFrom(files, Outcomes(template, records, widthOf), Paths(records, outputArg), |records| == 1,
            MergePath(outputArg, isDirectory))
  }

  /** Every one of the first n outcomes is a document. */
  predicate AllOk(outcomes: seq<Result<seq<Page>>>, n: nat)
    requires n <= |outcomes|
  {
    forall k :: 0 <= k < n ==> outcomes[k].Ok?
  }

  /** The documents of the outcomes, in order. */
  function Documents(outcomes: seq<Result<seq<Page>>>): (docs: seq<seq<Page>>)
    requires AllOk(outcomes, |outcomes|)
    ensures |docs| == |outcomes|
    ensures forall k :: 0 <= k < |docs| ==> outcomes[k] == Ok(docs[k])
  {
    seq(|outcomes|, k requires 0 <= k < |outcomes| => outcomes[k].value)
  }

  /** What the files of several documents hold once each is saved. */
  function SavedAll(docs: seq<seq<Page>>): seq<seq<Page>> {
    seq(|docs|, k requires 0 <= k < |docs| => Saved(docs[k]))
  }

  /** The pages of several documents, one document after another. */
  function Flatten(docs: seq<seq<Page>>): seq<Page> {
    if docs == [] then [] else docs[0] + Flatten(docs[1..])
  }

  /** The loop stops exactly when a record fails, at the first one, with the
      paths of the records before it generated. */
  lemma {:induction false} GenerateFailure(files: Files, outcomes: seq<Result<seq<Page>>>, paths: seq<string>, n: nat)
    requires n <= |outcomes| == |paths|
    ensures Generate(files, outcomes, paths, n).failure.None? <==> AllOk(outcomes, n)
    ensures !AllOk(outcomes, n) ==>
      exists k :: 0 <= k < n && outcomes[k].Err? && AllOk(outcomes, k) &&
        Generate(files, outcomes, paths, n) == RunState(Generate(files, outcomes, paths, k).files, paths[..k], Some(outcomes[k].error))
  {
    if n > 0 {
      GenerateFailure(files, outcomes, paths, n - 1);
      if !AllOk(outcomes, n - 1) {
        var k :| 0 <= k < n - 1 && outcomes[k].Err? && AllOk(outcomes, k) &&
          Generate(files, outcomes, paths, n - 1) == RunState(Generate(files, outcomes, paths, k).files, paths[..k], Some(outcomes[k].error));
        assert !AllOk(outcomes, n);
      } else if outcomes[n - 1].Err? {
        GeneratePaths(files, outcomes, paths, n - 1);
        assert AllOk(outcomes, n - 1);
      }
    }
  }

  /** When every record succeeds, the loop writes one path per record, in
      record order and without removing repeats, and each of those paths
      then holds a file. */
  lemma {:induction false} GeneratePaths(files: Files, outcomes: seq<Result<seq<Page>>>, paths: seq<string>, n: nat)
    requires n <= |outcomes| == |paths|
    requires AllOk(outcomes, n)
    ensures var g := Generate(files, outcomes, paths, n);
      && g.failure.None?
      && g.generated == paths[..n]
      && (forall k :: 0 <= k < n ==> paths[k] in g.files)
  {
    if n > 0 {
      GeneratePaths(files, outcomes, paths, n - 1);
      assert outcomes[n - 1].Ok?;
      assert paths[..n] == paths[..n - 1] + [paths[n - 1]];
    }
  }

  /** After n records, record k's file holds record k's saved document when
      no later record was written to the same path; a later record with the
      same path overwrites it instead. */
  lemma {:induction false} GeneratedDocuments(files: Files, outcomes: seq<Result<seq<Page>>>, paths: seq<string>,
                                              n: nat, k: nat)
    requires k < n <= |outcomes| == |paths|
    requires AllOk(outcomes, n)
    requires forall b :: k < b < n ==> paths[b] != paths[k]
    ensures var g := Generate(files, outcomes, paths, n);
      paths[k] in g.files && g.files[paths[k]] == Saved(outcomes[k].value)
  {
    GeneratePaths(files, outcomes, paths, n - 1);
    assert outcomes[n - 1].Ok?;
    if k < n - 1 {
      GeneratedDocuments(files, outcomes, paths, n - 1, k);
    }
  }

  /** Once the loop has failed, later records change nothing. */
  lemma {:induction false} GenerateStable(files: Files, outcomes: seq<Result<seq<Page>>>, paths: seq<string>,
                                          m: nat, n: nat)
    requires m <= n <= |outcomes| == |paths|
    requires Generate(files, outcomes, paths, m).failure.Some?
    ensures Generate(files, outcomes, paths, n) == Generate(files, outcomes, paths, m)
  {
    if n > m {
      GenerateStable(files, outcomes, paths, m, n - 1);
    }
  }

  /** Two records with the same path (for example names starting with the
      same digits): the later document overwrites the earlier one, so the
      earlier record's path holds the later saved document. */
  lemma LaterRecordOverwrites(files: Files, outcomes: seq<Result<seq<Page>>>, paths: seq<string>, a: nat, b: nat)
    requires a < b < |outcomes| == |paths|
    requires AllOk(outcomes, |outcomes|)
    requires paths[a] == paths[b]
    requires forall c :: b < c < |paths| ==> paths[c] != paths[b]
    ensures paths[a] in Generate(files, outcomes, paths, |paths|).files
    ensures Generate(files, outcomes, paths, |paths|).files[paths[a]] == Saved(outcomes[b].value)
  {
    GeneratedDocuments(files, outcomes, paths, |paths|, b);
  }

  /** Merging files that hold the given documents yields those documents'
      pages in path order. */
  lemma {:induction false} MergedDocuments(files: Files, paths: seq<string>, docs: seq<seq<Page>>)
    requires |paths| == |docs|
    requires forall k :: 0 <= k < |paths| ==> paths[k] in files && files[paths[k]] == docs[k]
    ensures Merged(files, paths) == Ok(Flatten(docs))
  {
    if paths != [] {
      MergedDocuments(files, paths[1..], docs[1..]);
    }
  }

  /** A run stops at the first record that fails: the error is that
      record's, the files of the records before it stay written, and nothing
      is merged. */
  lemma RunFromFails(files: Files, outcomes: seq<Result<seq<Page>>>, paths: seq<string>, single: bool, mergePath: string)
    requires |outcomes| == |paths|
    requires !AllOk(outcomes, |outcomes|)
    ensures exists k :: (0 <= k < |outcomes| && outcomes[k].Err? && AllOk(outcomes, k) &&
      RunFrom(files, outcomes, paths, single, mergePath) ==
        RunState(Generate(files, outcomes, paths, k).files, paths[..k], Some(outcomes[k].error)))
  {
    GenerateFailure(files, outcomes, paths, |paths|);
  }

  /** A run in which every record succeeds generates every path in order;
      unless it is a single-record run, the merge then succeeds and its
      document has as many pages as the generated files together, or the
      one default page when there are none. */
  lemma RunFromSucceeds(files: Files, outcomes: seq<Result<seq<Page>>>, paths: seq<string>, single: bool, mergePath: string)
    requires |outcomes| == |paths|
    requires AllOk(outcomes, |outcomes|)
    ensures var g := Generate(files, outcomes, paths, |paths|);
      var r := RunFrom(files, outcomes, paths, single, mergePath);
      && r.failure.None?
      && r.generated == paths
      && (forall k :: 0 <= k < |paths| ==> paths[k] in g.files)
      && (single ==> r.files == g.files)
      && (!single ==> mergePath in r.files)
      && (!single ==> |r.files[mergePath]| == if PageTotal(g.files, paths) == 0 then 1 else PageTotal(g.files, paths))
  {
    GeneratePaths(files, outcomes, paths, |paths|);
    assert paths[..|paths|] == paths;
    MergedSpec(Generate(files, outcomes, paths, |paths|).files, paths);
  }

  /** A merging run in which every record succeeds and writes its own path:
      the merged document is the records' saved documents one after another,
      saved in turn, and every record's file other than mergePath still holds
      its saved document. */
  lemma RunFromMerged(files: Files, outcomes: seq<Result<seq<Page>>>, paths: seq<string>, mergePath: string)
    requires |outcomes| == |paths|
    requires AllOk(outcomes, |outcomes|)
    requires forall a, b :: 0 <= a < b < |paths| ==> paths[a] != paths[b]
    ensures var r := RunFrom(files, outcomes, paths, false, mergePath);
      && mergePath in r.files
      && r.files[mergePath] == Saved(Flatten(SavedAll(Documents(outcomes))))
      && forall k :: 0 <= k < |paths| && paths[k] != mergePath ==>
           paths[k] in r.files && r.files[paths[k]] == Saved(Documents(outcomes)[k])
  {
    var n := |paths|;
    var docs := Documents(outcomes);
    GeneratePaths(files, outcomes, paths, n);
    var g := Generate(files, outcomes, paths, n);
    assert paths[..n] == paths;
    forall k | 0 <= k < n
      ensures paths[k] in g.files && g.files[paths[k]] == SavedAll(docs)[k]
    {
      GeneratedDocuments(files, outcomes, paths, n, k);
    }
    MergedDocuments(g.files, paths, SavedAll(docs));
  }

  /** One step of the loop of a run: record i's document is written to its
      path, or its failure ends the run with nothing more written. */
  lemma GenerateStep(files: Files, outcomes: seq<Result<seq<Page>>>, paths: seq<string>, i: nat,
                     loopFiles: Files, generated: seq<string>, single: bool, mergePath: string)
    requires i < |outcomes| == |paths|
    requires Generate(files, outcomes, paths, i) == RunState(loopFiles, generated, None)
    ensures outcomes[i].Ok? ==>
      Generate(files, outcomes, paths, i + 1) ==
        RunState(loopFiles[paths[i] := Saved(outcomes[i].value)], generated + [paths[i]], None)
    ensures outcomes[i].Err? ==>
      RunFrom(files, outcomes, paths, single, mergePath) == RunState(loopFiles, generated, Some(outcomes[i].error))
  {
    if outcomes[i].Err? {
      GenerateStable(files, outcomes, paths, i + 1, |paths|);
    }
  }

  /** The end of a run whose loop completed: a single-record run stops
      there, any other merges what was generated or reports the missing
      file. */
  lemma RunAfterLoop(files: Files, template: seq<Page>, records: seq<Record>, outputArg: string,
                     widthOf: string -> real, isDirectory: bool, loopFiles: Files, generated: seq<string>)
    requires Generate(files, Outcomes(template, records, widthOf), Paths(records, outputArg), |records|) ==
      RunState(loopFiles, generated, None)
    ensures Run(files, template, records, outputArg, widthOf, isDirectory) ==
      if |records| == 1 then RunState(loopFiles, generated, None)
      else
        var (merged, failure) := MergeFiles(loopFiles, generated, MergePath(outputArg, isDirectory));
        RunState(merged, generated, failure)
  {
  }

  /** Every record of the table gives a document. */
  predicate AllSucceed(template: seq<Page>, records: seq<Record>, widthOf: string -> real) {
    AllOk(Outcomes(template, records, widthOf), |records|)
  }

  /** A table with a single record: its document is saved to outputArg
      itself, and nothing is merged. */
  lemma RunSingle(files: Files, template: seq<Page>, records: seq<Record>, outputArg: string,
                  widthOf: string -> real, isDirectory: bool)
    requires |records| == 1
    ensures var r := Run(files, template, records, outputArg, widthOf, isDirectory);
      match RecordDocument(template, records[0], widthOf(records[0].name))
      case Ok(d) => r == RunState(files[outputArg := Saved(d)], [outputArg], None)
      case Err(e) => r == RunState(files, [], Some(e))
  {
    var outcomes, paths := Outcomes(template, records, widthOf), Paths(records, outputArg);
    assert paths[0] == outputArg;
    assert Generate(files, outcomes, paths, 0) == RunState(files, [], None);
  }

  /** An empty table still goes down the merge path: the merged document has
      no pages of its own, so it is saved with only the default page. */
  lemma RunEmpty(files: Files, template: seq<Page>, records: seq<Record>, outputArg: string,
                 widthOf: string -> real, isDirectory: bool)
    requires records == []
    ensures Run(files, template, records, outputArg, widthOf, isDirectory) ==
      RunState(files[MergePath(outputArg, isDirectory) := [DefaultPage]], [], None)
  {
  }

  /** With several records that all succeed and are written to distinct
      paths, the merged document is the records' saved documents, one after
      another in table order, and every record's own file still holds its
      saved document. */
  lemma RunMergedContents(files: Files, template: seq<Page>, records: seq<Record>, outputArg: string,
                          widthOf: string -> real, isDirectory: bool)
    requires |records| != 1
    requires AllSucceed(template, records, widthOf)
    requires forall a, b :: 0 <= a < b < |records| ==> Paths(records, outputArg)[a] != Paths(records, outputArg)[b]
    ensures var r := Run(files, template, records, outputArg, widthOf, isDirectory);
      var docs := Documents(Outcomes(template, records, widthOf));
      && MergePath(outputArg, isDirectory) in r.files
      && r.files[MergePath(outputArg, isDirectory)] == Saved(Flatten(SavedAll(docs)))
      && (records != [] ==> r.files[MergePath(outputArg, isDirectory)] == Flatten(SavedAll(docs)))
      && forall k :: 0 <= k < |records| ==>
           Paths(records, outputArg)[k] in r.files && r.files[Paths(records, outputArg)[k]] == Saved(docs[k])
  {
    var paths := Paths(records, outputArg);
    var docs := Documents(Outcomes(template, records, widthOf));
    RunFromMerged(files, Outcomes(template, records, widthOf), paths, MergePath(outputArg, isDirectory));
    PathsShape(records, outputArg);
    forall k | 0 <= k < |records|
      ensures paths[k] != MergePath(outputArg, isDirectory)
    {
      assert |outputArg| < |paths[k]|;
    }
    if records != [] {
      assert Flatten(SavedAll(docs)) == Saved(docs[0]) + Flatten(SavedAll(docs)[1..]);
    }
  }

  /** A record whose page list reads no number lays out no sheet, so its
      file holds only the default page. */
  lemma RecordWithoutPages(template: seq<Page>, rec: Record, nameWidth: real)
    requires ParsePageList(rec.pages) == []
    ensures RecordDocument(template, rec, nameWidth) == Ok([])
    ensures Saved(RecordDocument(template, rec, nameWidth).value) == [DefaultPage]
  {
    ComposedSheetCount([], rec.name, nameWidth);
  }

  /** A record's file in a directory is never the merged file. */
  lemma OutputPathIsNotMerged(outputArg: string, name: string, i: nat)
    ensures OutputPath(outputArg, false, name, i) != MergePath(outputArg, true)
  {
    var prefix := outputArg + "/";
    assert MergePath(outputArg, true) == prefix + "merged.pdf";
    FilenameIsNotMerged(name, i);
    SuffixesDiffer(prefix, Filename(name, i), "merged.pdf");
  }

  /** Two strings that differ still differ behind a common prefix. */
  lemma SuffixesDiffer(prefix: string, a: string, b: string)
    requires a != b
    ensures prefix + a != prefix + b
  {
    assert (prefix + a)[|prefix|..] == a;
    assert (prefix + b)[|prefix|..] == b;
  }

  /** A single record is written to outputArg itself; with any other
      number of records each goes under `<outputArg>/` and none is written
      where a directory run puts the merged file. */
  lemma PathsShape(records: seq<Record>, outputArg: string)
    ensures |records| == 1 ==> Paths(records, outputArg) == [outputArg]
    ensures |records| != 1 ==> forall k :: 0 <= k < |records| ==>
      var p := Paths(records, outputArg)[k];
      |outputArg| < |p| && p[..|outputArg| + 1] == outputArg + "/" && p != MergePath(outputArg, true)
  {
    var paths := Paths(records, outputArg);
    if |records| == 1 {
      assert paths[0] == RecordPath(records, outputArg, 0);
    } else {
      forall k | 0 <= k < |records|
        ensures |outputArg| < |paths[k]| && paths[k][..|outputArg| + 1] == outputArg + "/"
        ensures paths[k] != MergePath(outputArg, true)
      {
        var prefix := outputArg + "/";
        assert paths[k] == RecordPath(records, outputArg, k) == prefix + Filename(records[k].name, k);
        assert (prefix + Filename(records[k].name, k))[..|prefix|] == prefix;
        OutputPathIsNotMerged(outputArg, records[k].name, k);
      }
    }
  }

  /** Records whose names do not start with a digit get distinct paths:
      their files are told apart by the position in the table. */
  lemma PathsDistinct(records: seq<Record>, outputArg: string)
    requires |records| != 1
    requires forall k :: 0 <= k < |records| ==> DigitRun(records[k].name) == 0
    ensures forall a, b :: 0 <= a < b < |records| ==> Paths(records, outputArg)[a] != Paths(records, outputArg)[b]
  {
    var paths := Paths(records, outputArg);
    forall a, b | 0 <= a < b < |records|
      ensures paths[a] != paths[b]
    {
      var prefix := outputArg + "/";
      FilenamesDistinct(records[a].name, a, records[b].name, b);
      assert paths[a] == prefix + Filename(records[a].name, a);
      assert paths[b] == prefix + Filename(records[b].name, b);
      assert paths[a][|prefix|..] == Filename(records[a].name, a);
      assert paths[b][|prefix|..] == Filename(records[b].name, b);
    }
  }

  /** outcomes and paths are what `main` gives for each record and where
      `runAll` writes it. */
  predicate Plan(template: seq<Page>, records: seq<Record>, outputArg: string, widthOf: string -> real,
                 outcomes: seq<Result<seq<Page>>>, paths: seq<string>)
  {
    && |outcomes| == |paths| == |records|
    && (forall k {:trigger RecordDocument(template, records[k], widthOf(records[k].name))} ::
          0 <= k < |records| ==> outcomes[k] == RecordDocument(template, records[k], widthOf(records[k].name)))
    && (forall k {:trigger RecordPath(records, outputArg, k)} ::
          0 <= k < |records| ==> paths[k] == RecordPath(records, outputArg, k))
  }

  /** One pass of the loop of `runAll`: the row number and the name part of
      record i give its output path, `<outputArg>/<rowNumber>_<namePart>.pdf`
      or outputArg itself for a single-record table; its document is written
      there and the loop goes on, or its failure is the outcome of the whole
      run. */
  method RunStep(fs: FileSystem, template: seq<Page>, records: seq<Record>, outputArg: string,
                 widthOf: string -> real, i: nat, isSingle: bool, ghost outcomes: seq<Result<seq<Page>>>,
                 ghost paths: seq<string>, ghost files: Files, ghost generated: seq<string>, ghost mergePath: string)
    returns (outputFile: string, err: Option<Error>)
    requires i < |records| && isSingle == (|records| == 1)
    requires Plan(template, records, outputArg, widthOf, outcomes, paths)
    requires Generate(files, outcomes, paths, i) == RunState(fs.files, generated, None)
    modifies fs
    ensures err.None? ==> Generate(files, outcomes, paths, i + 1) == RunState(fs.files, generated + [outputFile], None)
    ensures err.Some? ==> RunFrom(files, outcomes, paths, isSingle, mergePath) == RunState(fs.files, generated, err)
  {
    var name := records[i].name;
    var rowNumber := RowNumber(name, i);
    var namePart := NamePart(name);
    var filename := rowNumber + "_" + namePart + ".pdf";
    outputFile := if isSingle then outputArg else outputArg + "/" + filename;
    assert outputFile == RecordPath(records, outputArg, i);
    assert outcomes[i] == RecordDocument(template, records[i], widthOf(records[i].name));
    GenerateStep(files, outcomes, paths, i, fs.files, generated, isSingle, mergePath);
    err := GenerateRecord(fs, template, records, outputFile, i, widthOf);
  }

  /** The loop of `runAll`: it ends with every record written, or with the
      failure that ends the whole run. */
  method GenerateAll(fs: FileSystem, template: seq<Page>, records: seq<Record>, outputArg: string,
                     widthOf: string -> real, ghost outcomes: seq<Result<seq<Page>>>, ghost paths: seq<string>,
                     ghost mergePath: string) returns (generatedFiles: seq<string>, err: Option<Error>)
    requires Plan(template, records, outputArg, widthOf, outcomes, paths)
    modifies fs
    ensures err.None? ==> Generate(old(fs.files), outcomes, paths, |records|) == RunState(fs.files, generatedFiles, None)
    ensures err.Some? ==>
      RunFrom(old(fs.files), outcomes, paths, |records| == 1, mergePath) == RunState(fs.files, generatedFiles, err)
  {
    var isSingle := |records| == 1;
    generatedFiles := [];
    var i := 0;
    while i < |records|
      invariant 0 <= i <= |records|
      invariant Generate(old(fs.files), outcomes, paths, i) == RunState(fs.files, generatedFiles, None)
    {
      var outputFile;
      outputFile, err := RunStep(fs, template, records, outputArg, widthOf, i, isSingle, outcomes, paths,
                                 old(fs.files), generatedFiles, mergePath);
      if err.Some? {
        return;
      }
      generatedFiles := generatedFiles + [outputFile];
      i := i + 1;
    }
    err := None;
  }

  /** `runAll`: for each record in turn, compute its row number, name part
      and output path, run `main` for it and remember the path; a failing
      record ends the run. Unless there is exactly one record, merge the
      generated files into `<outputArg>/merged.pdf`, or into outputArg when
      that is not a directory. */
  method RunAll(fs: FileSystem, template: seq<Page>, records: seq<Record>, outputArg: string,
                widthOf: string -> real, isDirectory: bool) returns (generatedFiles: seq<string>, err: Option<Error>)
    modifies fs
    ensures Run(old(fs.files), template, records, outputArg, widthOf, isDirectory) == RunState(fs.files, generatedFiles, err)
  {
    var isSingle := |records| == 1;
    generatedFiles, err := GenerateAll(fs, template, records, outputArg, widthOf, Outcomes(template, records, widthOf),
                                       Paths(records, outputArg), MergePath(outputArg, isDirectory));
    if err.Some? {
      return;
    }
    RunAfterLoop(old(fs.files), template, records, outputArg, widthOf, isDirectory, fs.files, generatedFiles);
    if !isSingle {
      var mergedPath := if isDirectory then outputArg + "/merged.pdf" else outputArg;
      err := ConcatenatePDFs(fs, generatedFiles, mergedPath);
    }
  }
}
