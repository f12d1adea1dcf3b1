# Batch image organiser: a Dafny model of its routing core

The repository is a one-file utility (`new.py`) that walks a folder of product
images and its immediate subfolders, resizes every image, looks its file
basename up in the active worksheet of the first `.xlsx` file in the working
directory, and saves it either as `<barcode>.jpg` in the folder's output
directory or as `<basename>.jpg` in that directory's `not_found`
subdirectory, together with a per-folder `not_found_images.xlsx` report.

This project models the decision logic of `process_images` as pure Dafny
functions over abstract inputs and proves what it promises:

- `FileNames`: the case-insensitive extension allowlist and the basename
  taken before the last dot (`str.rsplit(".", 1)[0]`).
- `Decimal`, `Cells`: cell values (`int`, `bool`, `float`, text, empty,
  other) and the rule that renders a cell as a comparable string.
- `Sheets`: choosing the workbook, locating the barcode column in the header
  (the one fatal error), and the first-row-wins matcher, which also scans
  the header row. The module also holds a loop method mirroring the
  source's nested scan and a precomputed value-to-barcode index shown to
  agree with the scan.
- `Routing`: where each entry of one folder goes, the order of the
  not-found list, and a loop method mirroring the source's per-file loop.
- `Organizer`: folder enumeration (subfolders first, root last), skipping of
  image-free folders, the output layout, the report, and the whole run.
- `Paths`, `Search`, `Wrappers`: `os.path.join`/`os.path.basename`, first
  and last index searches, and `Option`/`Result`.

Inputs that the source obtains by I/O are parameters of the model:
- the working directory's listing (`cwd`);
- the worksheet a file name loads to (`load: string -> Sheet`);
- the tree of folder listings (`Tree`), in which every entry carries
  whether it decodes as an image (`FileEntry.decodes`).

A worksheet is a `Sheet`: a header row plus data rows, each as wide as the
header, because openpyxl's `iter_rows` yields rows padded to the sheet
width. Outputs are values: each folder yields `Skipped` or `Processed`. A
`Processed` value records:
- the output and `not_found` directories and the directories created;
- the images written, as directory and file name;
- the report path and its rows.

Some behaviour of the code is easy to miss:
- The header row takes part in matching, because `iter_rows` at line 67
  has no `min_row`. So an image named after the barcode column matches the
  header (`Sheets.HeaderRowMatchesColumnName`).
- With no workbook, every image is still routed to `not_found` and listed in
  the report. The code has no separate "keep the original name" mode.
- Only a file whose name ends in `.xlsx` is taken as the workbook, compared
  case-sensitively, while the image filter ignores case.
- `bool` cells are integers in Python, so `True` renders as `"1"`. An empty
  cell renders as `"None"`, so an image named `None.jpg` is found in any
  worksheet with an empty cell. It takes the barcode of the first row holding
  a cell that renders as "None", which may be an earlier row with the text
  "None" (`Sheets.EmptyCellMatchesNone`).

## Model

| member | source | states |
|---|---|---|
| Search.FirstWhere | new.py:21 | the index returned is the first whose element satisfies the test; `None` exactly when no element does (the meaning of `tuple.index`, `next(..., None)` and a scan with `break`) |
| Search.LastIndexOf | new.py:62 | the index returned holds the separator and no later position does; `None` exactly when the separator is absent |
| Decimal.NatString | new.py:71 | `str()` of a natural number is a non-empty run of digits with no leading zero; zero is exactly "0" and only numbers below ten have one digit |
| Decimal.NatStringUnique | new.py:71 | the rendering is canonical: any digit string without a spurious leading zero that reads back as `n` is the rendering of `n` |
| Decimal.DecimalString | new.py:71 | `str()` of a negative integer is `-` followed by the rendering of its magnitude; a non-negative one has no sign |
| Decimal.DecimalRoundTrip | new.py:71 | reading back `str(int(cell))` gives the integer |
| Decimal.DecimalInjective | new.py:71 | distinct integers render as distinct strings |
| FileNames.ImageNameIgnoresCase | new.py:60 | a name counts as an image exactly when its last characters spell `.jpg`, `.jpeg`, `.png` or `.webp` in any mix of upper and lower case |
| FileNames.ImageNameCaseInvariant | new.py:38 | names differing only in letter case are classified alike by the filter |
| FileNames.ImageNameExamples | new.py:60 | `IMG_01.JPG` and `label.WebP` are images |
| FileNames.NotImageExample | new.py:60 | `photo.jpg.bak` is not an image |
| FileNames.BasenameRoundTrip | new.py:62 | basename, dot and remainder give the name back; the remainder has no dot; a dot-free name is its own basename |
| FileNames.SplitAtExtension | new.py:62 | a name ending in an allowlisted extension, ignoring case, splits exactly at that extension's dot |
| FileNames.ImageNameSplit | new.py:60-62 | every image name has a dot, its basename is the name minus the extension, and the extension, ignoring case, is on the allowlist |
| Paths.JoinEntry | new.py:45-47 | joining a directory-entry name onto a folder gives a longer path that starts with the folder and whose `basename` is the entry name |
| Cells.NormalizeMeaning | new.py:71-73 | an integral `int`, `bool` or `float` cell renders as its integer (1023.0 reads back as 1023); a text cell renders as itself; an empty cell as "None"; any other cell as its own string form |
| Cells.IntegralNormalizeInjective | new.py:71-73 | two integral cells render alike exactly when their integer values are equal, whatever their Python type |
| Cells.IntegralFloatExample | new.py:71-73 | the float 1023.0 renders as "1023", like the int 1023 and the text "1023" |
| Cells.NonIntegralFloatExample | new.py:73 | a non-integral float such as 10.5 keeps its own string form |
| Cells.BoolExample | new.py:72 | `True` renders as "1" and `False` as "0" |
| Sheets.FirstWorkbook | new.py:11 | the workbook is the first listed name ending in `.xlsx`; none exactly when no name ends so |
| Sheets.HeaderIndex | new.py:19-23 | the barcode column is the first header cell equal to the column name; the lookup fails with the column-not-found error exactly when no header cell equals it |
| Sheets.Setup | new.py:11-25 | no workbook gives no lookup; with a workbook the run fails exactly when its header lacks the column, and otherwise the lookup uses that worksheet and the first matching column |
| Sheets.Rows | new.py:67 | the rows the matcher scans: the header first, then every data row, all as wide as the header; `Sheets.HeaderRowMatchesColumnName` shows the header row taking part |
| Sheets.RowMatches | new.py:68-76 | the `any(...)` over one row's cells; `Sheets.MatchImage` and `Sheets.ScanForBarcode` state what it decides |
| Sheets.MatchImage | new.py:64-84 | no worksheet means not found. Otherwise nothing is found exactly when no row, header included, has a cell rendering as the basename. A find returns the first such row's barcode-column cell, rendered the same way |
| Sheets.MatchImageAt | new.py:67-84 | the first matching row determines the answer: its barcode-column cell, rendered |
| Sheets.ScanForBarcode | new.py:64-84 | the source's nested row and cell scan finds a barcode exactly when the matcher does, and finds the same barcode |
| Sheets.BuildIndexFirstRow | new.py:67-84 | a value is in the precomputed index exactly when some row matches it, and maps to the barcode of the first such row |
| Sheets.IndexAgreesWithScan | new.py:64-84 | looking a basename up in the index gives the scan's answer, so the index keeps the first-row-wins rule |
| Sheets.HeaderRowMatchesColumnName | new.py:67 | because the header row is scanned, an image named after the barcode column is matched by the header and renamed to the column name |
| Sheets.EmptyCellMatchesNone | new.py:73 | an image whose basename is "None" is found in any worksheet that has an empty cell, and gets the barcode of the first row holding a cell rendering as "None", which is that row or an earlier one |
| Sheets.BarcodeFromDesignatedColumn | new.py:77-82 | with the barcode in column 0 and the basename in column 2, the image gets column 0's value |
| Routing.ConvertedIndices | new.py:59-95 | the positions of entries that are image names and decode, ascending, each such entry named exactly once |
| Routing.RoutesFollowListing | new.py:59-106 | exactly one routing decision per converted entry, in listing order; non-images and decode failures contribute none |
| Routing.RoutesAppend | new.py:59 | routing a listing in two parts gives the parts' decisions in order |
| Routing.NotFoundAppend | new.py:106 | the not-found list only grows by appending at its end |
| Routing.NotFoundNamesMembers | new.py:103-106 | a name is on the list exactly when it is the basename of an unmatched image |
| Routing.NotFoundListMembers | new.py:56-106 | a folder's list holds exactly the basenames of converted entries that the lookup does not match |
| Routing.NoSheetListsEverything | new.py:64-65 | without a worksheet the list is the basename of every converted entry, in listing order |
| Routing.NoImagesNoRoutes | new.py:60 | a listing without an image name yields no output |
| Routing.DestinationExclusive | new.py:98-105 | the directory argument of each save is one of two distinct directories: `not_found`, with the basename, when unmatched; the output directory, with the barcode, when matched |
| Routing.SavedPathExclusive | new.py:99-105 | for a barcode without `/`, the joined path an image is saved to ends in its file name, lies below the output directory, and lies below `not_found` exactly when the image is unmatched |
| Paths.JoinedInSubdir | new.py:52 | a name joined onto `not_found` lies below both `not_found` and the folder's output directory |
| Paths.SiblingNotInSubdir | new.py:101 | a slash-free name joined onto the output directory never lies below its `not_found` subdirectory |
| Routing.ProcessFile | new.py:60-109 | one loop iteration writes one image to its destination for a converted entry and nothing otherwise, listing the basename only when unmatched |
| Routing.ProcessFolderFiles | new.py:56-109 | the source's per-file loop, starting from an empty list, produces exactly the routed writes and the not-found list |
| Organizer.ReportRows | new.py:116-125 | the report is the "Image Filename" header followed by the names in order |
| Organizer.FolderWrites | new.py:43-106 | in a processed folder, converted entries map one-to-one and in order onto written images: `<barcode>.jpg` in the output directory when matched, `<basename>.jpg` in the distinct `not_found` directory otherwise |
| Organizer.FolderReportRows | new.py:103-113 | a processed folder's report starts with the header and lists exactly the unmatched basenames |
| Organizer.SkipOnlyImageFree | new.py:36-41 | a folder is skipped exactly when no listed name is an image name, and such a folder would have produced no output |
| Organizer.RunFailure | new.py:14-23 | the run fails exactly when a workbook exists whose header lacks the column, and the error names the column |
| Organizer.RunWithoutWorkbook | new.py:24-25 | with no workbook the run cannot fail and every folder is processed with no lookup |
| Organizer.FolderWithoutLookup | new.py:64-106 | without a lookup nothing is renamed: every image goes to `not_found` and the report lists every converted basename in order |
| Organizer.RunLayout | new.py:31-53 | a successful run covers each subfolder in scandir order and then the root. A processed subfolder goes to `output_folder/<name>`, which is created; the root goes to `output_folder`. Each report lies in its folder's `not_found` directory |
| Cells.Normalize | new.py:71-73 | the string a cell is compared as; its meaning is given by `Cells.NormalizeMeaning` and `Cells.IntegralNormalizeInjective` |
| FileNames.IsImageName | new.py:38 | the extension filter; `FileNames.ImageNameIgnoresCase` characterises it as a case-insensitive suffix test against the four extensions |
| FileNames.Basename | new.py:62 | `rsplit(".", 1)[0]`; `FileNames.BasenameRoundTrip` and `FileNames.ImageNameSplit` state that it is the name before the last dot |
| Paths.Join | new.py:45-52 | `os.path.join`; `Paths.JoinEntry` and `Paths.JoinRelative` state that a relative name is appended after a `/` |
| Paths.JoinRelative | new.py:45-52 | joining a relative name gives the directory, a `/` unless it already ends in one, and the name, which then lies below the directory |
| Paths.PathBasename | new.py:46 | `os.path.basename`; `Paths.JoinEntry` states that it gives back the entry name that was joined on |
| Routing.Converted | new.py:60-95 | an entry yields an output exactly when its name passes the extension filter and its decode succeeds; `Routing.ConvertedIndices` and `Routing.RoutesFollowListing` state that these are the entries routed |
| Routing.Destination | new.py:98-105 | the save target: `<barcode>.jpg` in the output directory when matched, `<basename>.jpg` in `not_found` otherwise; `Routing.DestinationExclusive` and `Routing.SavedPathExclusive` state its meaning |
| Routing.RouteOf | new.py:62-84 | the decision for one converted entry: renamed to the matcher's barcode or kept under its basename; `Routing.ProcessFile` ties it to the loop body |
| Routing.Routes | new.py:59-106 | the decisions for a whole listing; `Routing.RoutesFollowListing` states one per converted entry, in order |
| Routing.NotFoundNames | new.py:106 | the basenames of the unmatched decisions; `Routing.NotFoundNamesMembers` and `Routing.NotFoundListMembers` give its contents |
| Organizer.Folders | new.py:31-32 | one folder per subdirectory plus the root; `Organizer.RunLayout` states the order and the output directories |
| Organizer.HasImageName | new.py:37-39 | the skip test; `Organizer.SkipOnlyImageFree` states that a folder is skipped exactly when no name passes the filter |
| Organizer.ProcessFolders | new.py:33-113 | one outcome per folder, in order, with the same lookup; `Organizer.ProcessAllFolders` states that the source's loop produces it |
| Organizer.ProcessFolder | new.py:36-113 | one folder's outcome; `Organizer.SkipOnlyImageFree`, `Organizer.FolderWrites` and `Organizer.FolderReportRows` state its skip rule, writes and report |
| Organizer.Run | new.py:9-113 | the whole run; `Organizer.RunFailure`, `Organizer.RunWithoutWorkbook` and `Organizer.RunLayout` state when it fails and what it produces |
| Organizer.ProcessAllFolders | new.py:33-113 | the source's folder loop, with a fresh list per folder, yields exactly the modelled per-folder outcomes |

## Left out

- Image decoding, resizing to 270×300 and mode conversion (lines 86-95) are
  PIL calls. They are modelled as the `decodes` flag of each listing entry.
  A file that fails any of these steps is skipped without output and
  without a report entry.
- openpyxl loading, the `.xlsx` report file and JPEG encoding are library
  I/O. The loaded worksheet is the `load` parameter. The report is modelled
  only as its path and its column of values.
- `os.listdir`, `os.scandir` and `os.makedirs` are filesystem I/O. Listings
  and their order are inputs (`cwd`, `Tree`). The directories the code
  creates are recorded in `madeDirs` but not created.
- Float formatting is float semantics. `str()` of a non-integral float is a
  given string inside the cell, as is `int()` of an integral one. `int()` of
  NaN or infinity, which raises, is not modelled.
- FileNames.Lower folds ASCII letters only. Python's full Unicode
  `str.lower()` is not modelled.
- An `IndexError` from `row[barcode_index]` cannot happen, because every
  `Sheet` row is as wide as the header, as openpyxl delivers rows.
- Errors raised by filesystem or library calls (permissions, disk full) are
  not modelled. The only modelled error is the missing barcode column.
- `img.save` (lines 100 and 105) lies outside the `try`. An image that
  decodes and resizes but whose mode JPEG cannot store (such as "LA", "I;16"
  or "PA") makes the save raise. That aborts the whole run: the folder gets
  no report and later folders are not processed. The model treats such an
  entry as converted and records its write, because encoder support is PIL
  behaviour.
- Routing.DestinationExclusive: states which directory argument each save
  receives, not where the joined path ends up. A barcode cell containing `/`
  would send the file into a subdirectory, or make the save raise when that
  subdirectory does not exist. `Routing.SavedPathExclusive` states the
  path-level claim only for barcodes without `/`.
- Organizer.FolderWrites: likewise records each write as a directory and a
  file name. Barcodes containing `/` are not excluded there, and the path
  they lead to is not described.
- Overwrites on disk are not modelled. Two images with the same barcode give
  two writes to the same path; the later one wins on disk.
- Console output (`print`) and the hard-coded call at lines 133-135 are left
  out. The entry point's folder names are ordinary parameters of `Run`.
