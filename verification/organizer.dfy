/** The whole run of `process_images` (new.py lines 9-113): load the lookup,
    enumerate the root's subfolders followed by the root itself, skip folders
    without image names, and route every other folder's images, writing its
    not-found report. */
module Organizer {
  import opened Wrappers
  import opened FileNames
  import opened Paths
  import opened Cells
  import opened Sheets
  import opened Routing

  const ReportFileName := "not_found_images.xlsx"
  const ReportHeader := "Image Filename"

  /** `create_not_found_excel` (new.py lines 116-129) as the column of values
      it writes: the header, then one row per name in the given order. */
  function ReportRows(names: seq<string>): (rows: seq<string>)
    ensures |rows| == |names| + 1 && rows[0] == ReportHeader
    ensures forall k | 0 <= k < |names| :: rows[k + 1] == names[k]
  {
    [ReportHeader] + names
  }

  /** `any(file.lower().endswith(valid_image_extensions) for file in listing)`. */
  predicate HasImageName(files: seq<FileEntry>) {
    exists i | 0 <= i < |files| :: IsImageName(files[i].name)
  }

  /** What happens to one folder: skipped, or processed into an output
      directory (created when it is a subfolder's), its `not_found` directory,
      the images written, and the report written into `not_found`. */
  datatype FolderOutcome =
    | Skipped
    | Processed(outDir: string, notFoundDir: string, madeDirs: seq<string>,
                writes: seq<Write>, reportPath: string, report: seq<string>)

  function ProcessFolder(l: Lookup, imageFolder: string, outputFolder: string,
                         folder: string, files: seq<FileEntry>): FolderOutcome
  {
    if !HasImageName(files) then Skipped
    else
      var outDir := if folder != imageFolder then Join(outputFolder, PathBasename(folder)) else outputFolder;
      var notFoundDir := Join(outDir, NotFoundDirName);
      var routes := Routes(l, files);
      Processed(outDir, notFoundDir,
                (if folder != imageFolder then [outDir] else []) + [notFoundDir],
                Writes(routes, outDir, notFoundDir),
                Join(notFoundDir, ReportFileName),
                ReportRows(NotFoundNames(routes)))
  }

  /** A processed folder's images: every converted entry yields exactly one
      image, in listing order, renamed to its barcode in the output directory
      when the lookup matches its basename and kept under its basename in the
      distinct `not_found` directory otherwise. */
  lemma FolderWrites(l: Lookup, imageFolder: string, outputFolder: string,
                     folder: string, files: seq<FileEntry>)
    requires ProcessFolder(l, imageFolder, outputFolder, folder, files).Processed?
    ensures var o := ProcessFolder(l, imageFolder, outputFolder, folder, files);
      var idx := ConvertedIndices(files);
      && o.notFoundDir == Join(o.outDir, NotFoundDirName) && o.notFoundDir != o.outDir
      && |o.writes| == |idx|
      && forall k | 0 <= k < |idx| ::
           var b := Basename(files[idx[k]].name);
           o.writes[k] == match MatchImage(l, b)
             case Found(code) => Write(o.outDir, code + OutputExtension)
             case NotFound => Write(o.notFoundDir, b + OutputExtension)
  {
    var o := ProcessFolder(l, imageFolder, outputFolder, folder, files);
    JoinEntryDiffers(o.outDir, NotFoundDirName);
    RoutesFollowListing(l, files);
  }

  /** A processed folder's report: the header, then exactly the basenames of
      the converted entries the lookup does not match. */
  lemma FolderReportRows(l: Lookup, imageFolder: string, outputFolder: string,
                         folder: string, files: seq<FileEntry>, b: string)
    requires ProcessFolder(l, imageFolder, outputFolder, folder, files).Processed?
    ensures var o := ProcessFolder(l, imageFolder, outputFolder, folder, files);
      && o.report[0] == ReportHeader
      && (b in o.report[1..] <==>
            exists i | 0 <= i < |files| ::
              Converted(files[i]) && Basename(files[i].name) == b && MatchImage(l, b).NotFound?)
  {
    var o := ProcessFolder(l, imageFolder, outputFolder, folder, files);
    assert o.report[1..] == NotFoundNames(Routes(l, files));
    NotFoundListMembers(l, files, b);
  }

  /** A folder is skipped exactly when no listed name is an image name, and
      skipping drops nothing: such a folder would have produced no output. */
  lemma SkipOnlyImageFree(l: Lookup, imageFolder: string, outputFolder: string,
                          folder: string, files: seq<FileEntry>)
    ensures ProcessFolder(l, imageFolder, outputFolder, folder, files).Skipped? <==>
      forall i | 0 <= i < |files| :: !IsImageName(files[i].name)
    ensures ProcessFolder(l, imageFolder, outputFolder, folder, files).Skipped? ==>
      Routes(l, files) == []
  {
    if !HasImageName(files) {
      NoImagesNoRoutes(l, files);
    }
  }

  datatype SubDir = SubDir(name: string, files: seq<FileEntry>)

  /** The input tree: the root folder's listing and its immediate
      subdirectories, each with its own listing, in scandir order. */
  datatype Tree = Tree(rootFiles: seq<FileEntry>, subdirs: seq<SubDir>)

  datatype FolderReport = FolderReport(folder: string, outcome: FolderOutcome)

  /** `[f.path for f in os.scandir(root) if f.is_dir()]` followed by the root:
      every folder path paired with its listing. */
  function Folders(imageFolder: string, t: Tree): (fs: seq<(string, seq<FileEntry>)>)
    ensures |fs| == |t.subdirs| + 1
  {
    seq(|t.subdirs|, k requires 0 <= k < |t.subdirs| =>
          (Join(imageFolder, t.subdirs[k].name), t.subdirs[k].files))
    + [(imageFolder, t.rootFiles)]
  }

  function ProcessFolders(l: Lookup, imageFolder: string, outputFolder: string,
                          fs: seq<(string, seq<FileEntry>)>): (rs: seq<FolderReport>)
    ensures |rs| == |fs|
  {
    seq(|fs|, k requires 0 <= k < |fs| =>
          FolderReport(fs[k].0, ProcessFolder(l, imageFolder, outputFolder, fs[k].0, fs[k].1)))
  }

  /** `process_images(image_folder, output_folder, barcode_column)`: the
      working directory's listing picks the workbook, `load` reads it. */
  function Run(cwd: seq<string>, load: string -> Sheet, column: string,
               imageFolder: string, outputFolder: string, t: Tree): Result<seq<FolderReport>, Error>
  {
    var l :- Setup(cwd, load, column);
    Success(ProcessFolders(l, imageFolder, outputFolder, Folders(imageFolder, t)))
  }

  /** The run fails, before any folder is touched, exactly when a workbook is
      present whose header has no cell equal to the column name; the error
      names the column. */
  lemma RunFailure(cwd: seq<string>, load: string -> Sheet, column: string,
                   imageFolder: string, outputFolder: string, t: Tree)
    ensures var r := Run(cwd, load, column, imageFolder, outputFolder, t);
      && (r.Failure? <==>
            FirstWorkbook(cwd).Some? &&
            var header := load(FirstWorkbook(cwd).value).header;
            forall k | 0 <= k < |header| :: header[k] != TextC(column))
      && (r.Failure? ==> r.error == ColumnNotFound(column))
  {
  }

  /** With no workbook in the working directory the run cannot fail and
      every folder is processed without a lookup. */
  lemma RunWithoutWorkbook(cwd: seq<string>, load: string -> Sheet, column: string,
                           imageFolder: string, outputFolder: string, t: Tree)
    requires FirstWorkbook(cwd).None?
    ensures Run(cwd, load, column, imageFolder, outputFolder, t).Success?
    ensures var rs := Run(cwd, load, column, imageFolder, outputFolder, t).value;
      var fs := Folders(imageFolder, t);
      forall k | 0 <= k < |rs| ::
        rs[k].outcome == ProcessFolder(NoSheet, imageFolder, outputFolder, fs[k].0, fs[k].1)
  {
  }

  /** A folder processed without a lookup renames nothing: every image goes
      to `not_found` and the report lists the basename of every converted
      entry in listing order. */
  lemma FolderWithoutLookup(imageFolder: string, outputFolder: string,
                            folder: string, files: seq<FileEntry>)
    requires ProcessFolder(NoSheet, imageFolder, outputFolder, folder, files).Processed?
    ensures var o := ProcessFolder(NoSheet, imageFolder, outputFolder, folder, files);
      var idx := ConvertedIndices(files);
      && (forall w | w in o.writes :: w.dir == o.notFoundDir)
      && |o.report| == |idx| + 1
      && forall m | 0 <= m < |idx| :: o.report[m + 1] == Basename(files[idx[m]].name)
  {
    var o := ProcessFolder(NoSheet, imageFolder, outputFolder, folder, files);
    var routes := Routes(NoSheet, files);
    NoSheetListsEverything(NoSheet, files);
    RoutesFollowListing(NoSheet, files);
    forall w | w in o.writes ensures w.dir == o.notFoundDir {
      var j :| 0 <= j < |o.writes| && o.writes[j] == w;
      assert routes[j].Unmatched?;
    }
  }

  /** A successful run reports on every subfolder in scandir order and then
      on the root; each subfolder that is processed gets
      `output_folder/<subfolder name>` (created) and the root gets
      `output_folder` itself; every processed folder's report lies in its
      `not_found` directory. */
  lemma RunLayout(cwd: seq<string>, load: string -> Sheet, column: string,
                  imageFolder: string, outputFolder: string, t: Tree)
    requires forall k | 0 <= k < |t.subdirs| :: IsEntryName(t.subdirs[k].name)
    requires Run(cwd, load, column, imageFolder, outputFolder, t).Success?
    ensures var rs := Run(cwd, load, column, imageFolder, outputFolder, t).value;
      && |rs| == |t.subdirs| + 1
      && rs[|t.subdirs|].folder == imageFolder
      && (forall k | 0 <= k < |t.subdirs| :: rs[k].folder == Join(imageFolder, t.subdirs[k].name))
      && (forall k | 0 <= k < |t.subdirs| && rs[k].outcome.Processed? ::
            var o := rs[k].outcome;
            o.outDir == Join(outputFolder, t.subdirs[k].name) &&
            o.madeDirs == [o.outDir, Join(o.outDir, NotFoundDirName)])
      && (rs[|t.subdirs|].outcome.Processed? ==>
            var o := rs[|t.subdirs|].outcome;
            o.outDir == outputFolder && o.madeDirs == [Join(outputFolder, NotFoundDirName)])
      && (forall k | 0 <= k < |rs| && rs[k].outcome.Processed? ::
            rs[k].outcome.reportPath == Join(rs[k].outcome.notFoundDir, ReportFileName))
  {
    var fs := Folders(imageFolder, t);
    forall k | 0 <= k < |t.subdirs|
      ensures PathBasename(fs[k].0) == t.subdirs[k].name && fs[k].0 != imageFolder
    {
      JoinEntry(imageFolder, t.subdirs[k].name);
    }
  }

  /** The source's folder loop (new.py lines 33-113), with a fresh not-found
      list for each folder. */
  method ProcessAllFolders(l: Lookup, imageFolder: string, outputFolder: string,
                           fs: seq<(string, seq<FileEntry>)>)
    returns (rs: seq<FolderReport>)
    ensures rs == ProcessFolders(l, imageFolder, outputFolder, fs)
  {
    rs := [];
    var k := 0;
    while k < |fs|
      invariant 0 <= k <= |fs|
      invariant |rs| == k
      invariant forall j | 0 <= j < k ::
        rs[j] == FolderReport(fs[j].0, ProcessFolder(l, imageFolder, outputFolder, fs[j].0, fs[j].1))
    {
      var (folder, files) := fs[k];
      var outcome: FolderOutcome;
      if !HasImageName(files) {
        outcome := Skipped;
      } else {
        var outDir := if folder != imageFolder then Join(outputFolder, PathBasename(folder)) else outputFolder;
        var notFoundDir := Join(outDir, NotFoundDirName);
        var madeDirs := (if folder != imageFolder then [outDir] else []) + [notFoundDir];
        var writes, notFound := ProcessFolderFiles(l, files, outDir);
        outcome := Processed(outDir, notFoundDir, madeDirs, writes,
                             Join(notFoundDir, ReportFileName), ReportRows(notFound));
      }
      rs := rs + [FolderReport(folder, outcome)];
      k := k + 1;
    }
  }
}
