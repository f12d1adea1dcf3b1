/** Where each file of one folder goes (new.py lines 56-106): non-images and
    files that fail to decode are dropped, matched images are renamed to their
    barcode in the folder's output directory, and unmatched images keep their
    basename, go to the `not_found` directory and are listed in order. */
module Routing {
  import opened Wrappers
  import opened FileNames
  import opened Paths
  import opened Cells
  import opened Sheets

  /** One entry of a folder listing: its name, and whether PIL can open, load,
      resize and convert it (the decode step is an oracle here). */
  datatype FileEntry = FileEntry(name: string, decodes: bool)

  const OutputExtension := ".jpg"
  const NotFoundDirName := "not_found"

  /** An entry that yields an output image: an image name that decodes. */
  predicate Converted(f: FileEntry) {
    IsImageName(f.name) && f.decodes
  }

  /** The routing decision for a converted image. */
  datatype Route = Renamed(barcode: string) | Unmatched(basename: string)

  function RouteOf(l: Lookup, f: FileEntry): Route {
    var b := Basename(f.name);
    match MatchImage(l, b)
    case Found(code) => Renamed(code)
    case NotFound => Unmatched(b)
  }

  /** The routes of a listing's converted entries, in listing order. */
  function Routes(l: Lookup, files: seq<FileEntry>): seq<Route>
    decreases |files|
  {
    if |files| == 0 then []
    else
      var last := files[|files| - 1];
      Routes(l, files[..|files| - 1]) + (if Converted(last) then [RouteOf(l, last)] else [])
  }

  /** An output image: the directory it is saved in and its file name there. */
  datatype Write = Write(dir: string, fileName: string) {
    function Path(): string {
      Join(dir, fileName)
    }
  }

  /** `<barcode>.jpg` in the output directory, or `<basename>.jpg` in its
      `not_found` directory. */
  function Destination(r: Route, outDir: string, notFoundDir: string): Write {
    match r
    case Renamed(code) => Write(outDir, code + OutputExtension)
    case Unmatched(b) => Write(notFoundDir, b + OutputExtension)
  }

  function Writes(routes: seq<Route>, outDir: string, notFoundDir: string): (ws: seq<Write>)
    ensures |ws| == |routes|
    ensures forall k | 0 <= k < |routes| :: ws[k] == Destination(routes[k], outDir, notFoundDir)
  {
    seq(|routes|, k requires 0 <= k < |routes| => Destination(routes[k], outDir, notFoundDir))
  }

  /** The `not_found_images` list: basenames of the unmatched routes, in order. */
  function NotFoundNames(routes: seq<Route>): seq<string>
    decreases |routes|
  {
    if |routes| == 0 then []
    else
      var last := routes[|routes| - 1];
      NotFoundNames(routes[..|routes| - 1]) + (if last.Unmatched? then [last.basename] else [])
  }

  /** The positions of the converted entries, ascending: each names a
      converted entry and every converted entry is named. */
  function ConvertedIndices(files: seq<FileEntry>): (idx: seq<nat>)
    ensures forall k | 0 <= k < |idx| :: idx[k] < |files| && Converted(files[idx[k]])
    ensures forall k, m | 0 <= k < m < |idx| :: idx[k] < idx[m]
    ensures forall i | 0 <= i < |files| :: Converted(files[i]) ==> i in idx
    decreases |files|
  {
    if |files| == 0 then []
    else
      var n := |files| - 1;
      var front := files[..n];
      var pre := ConvertedIndices(front);
      assert forall k | 0 <= k < |pre| :: files[pre[k]] == front[pre[k]];
      assert forall i | 0 <= i < n :: files[i] == front[i];
      pre + (if Converted(files[n]) then [n] else [])
  }

  /** Exactly one output per converted entry, in listing order: the k-th
      route belongs to the k-th converted entry, and entries that are not
      images or do not decode contribute nothing. */
  lemma {:induction false} RoutesFollowListing(l: Lookup, files: seq<FileEntry>)
    ensures |Routes(l, files)| == |ConvertedIndices(files)|
    ensures forall k | 0 <= k < |Routes(l, files)| ::
      Routes(l, files)[k] == RouteOf(l, files[ConvertedIndices(files)[k]])
    decreases |files|
  {
    if |files| > 0 {
      var n := |files| - 1;
      var front := files[..n];
      RoutesFollowListing(l, front);
      var pre := ConvertedIndices(front);
      var routes := Routes(l, files);
      assert routes == Routes(l, front) + (if Converted(files[n]) then [RouteOf(l, files[n])] else []);
      assert ConvertedIndices(files) == pre + (if Converted(files[n]) then [n] else []);
      forall k | 0 <= k < |routes|
        ensures routes[k] == RouteOf(l, files[ConvertedIndices(files)[k]])
      {
        if k < |pre| {
          assert files[pre[k]] == front[pre[k]];
        }
      }
    }
  }

  /** Processing a listing in two parts gives the two parts' routes in order. */
  lemma {:induction false} RoutesAppend(l: Lookup, a: seq<FileEntry>, b: seq<FileEntry>)
    ensures Routes(l, a + b) == Routes(l, a) + Routes(l, b)
    decreases |b|
  {
    if |b| == 0 {
      assert a + b == a;
    } else {
      var n := |b| - 1;
      assert (a + b)[..|a + b| - 1] == a + b[..n];
      RoutesAppend(l, a, b[..n]);
    }
  }

  /** The list grows by appending: unmatched routes of a longer sequence come
      after those of its prefix. */
  lemma {:induction false} NotFoundAppend(x: seq<Route>, y: seq<Route>)
    ensures NotFoundNames(x + y) == NotFoundNames(x) + NotFoundNames(y)
    decreases |y|
  {
    if |y| == 0 {
      assert x + y == x;
    } else {
      var n := |y| - 1;
      assert (x + y)[..|x + y| - 1] == x + y[..n];
      NotFoundAppend(x, y[..n]);
    }
  }

  /** A name is on the not-found list exactly when it is the basename of an
      unmatched route. */
  lemma {:induction false} NotFoundNamesMembers(routes: seq<Route>, b: string)
    ensures b in NotFoundNames(routes) <==>
      exists k | 0 <= k < |routes| :: routes[k] == Unmatched(b)
    decreases |routes|
  {
    if |routes| > 0 {
      var n := |routes| - 1;
      NotFoundNamesMembers(routes[..n], b);
      if b in NotFoundNames(routes[..n]) {
        var k :| 0 <= k < n && routes[..n][k] == Unmatched(b);
        assert routes[k] == Unmatched(b);
      }
      if exists k | 0 <= k < |routes| :: routes[k] == Unmatched(b) {
        var k :| 0 <= k < |routes| && routes[k] == Unmatched(b);
        if k < n {
          assert routes[..n][k] == Unmatched(b);
        }
      }
    }
  }

  /** The not-found list of a folder holds exactly the basenames of its
      converted entries that the lookup does not match. */
  lemma NotFoundListMembers(l: Lookup, files: seq<FileEntry>, b: string)
    ensures b in NotFoundNames(Routes(l, files)) <==>
      exists i | 0 <= i < |files| ::
        Converted(files[i]) && Basename(files[i].name) == b &&
        MatchImage(l, b).NotFound?
  {
    var rs := Routes(l, files);
    var idx := ConvertedIndices(files);
    RoutesFollowListing(l, files);
    NotFoundNamesMembers(rs, b);
    if b in NotFoundNames(rs) {
      var k :| 0 <= k < |rs| && rs[k] == Unmatched(b);
      var i := idx[k];
      assert RouteOf(l, files[i]) == Unmatched(b);
    }
    if exists i | 0 <= i < |files| ::
        Converted(files[i]) && Basename(files[i].name) == b && MatchImage(l, b).NotFound? {
      var i :| 0 <= i < |files| &&
        Converted(files[i]) && Basename(files[i].name) == b && MatchImage(l, b).NotFound?;
      assert i in idx;
      var k :| 0 <= k < |idx| && idx[k] == i;
      assert rs[k] == Unmatched(b);
    }
  }

  /** When no route is a rename, the list is every route's basename. */
  lemma {:induction false} AllUnmatchedListed(routes: seq<Route>)
    requires forall k | 0 <= k < |routes| :: routes[k].Unmatched?
    ensures |NotFoundNames(routes)| == |routes|
    ensures forall k | 0 <= k < |routes| :: NotFoundNames(routes)[k] == routes[k].basename
    decreases |routes|
  {
    if |routes| > 0 {
      var n := |routes| - 1;
      AllUnmatchedListed(routes[..n]);
    }
  }

  /** Without a worksheet every converted image is unmatched, so the list is
      the basenames of all converted entries in listing order. */
  lemma NoSheetListsEverything(l: Lookup, files: seq<FileEntry>)
    requires l.NoSheet?
    ensures |NotFoundNames(Routes(l, files))| == |ConvertedIndices(files)|
    ensures forall k | 0 <= k < |ConvertedIndices(files)| ::
      NotFoundNames(Routes(l, files))[k] == Basename(files[ConvertedIndices(files)[k]].name)
  {
    RoutesFollowListing(l, files);
    AllUnmatchedListed(Routes(l, files));
  }

  /** A listing without any image name produces no output at all. */
  lemma {:induction false} NoImagesNoRoutes(l: Lookup, files: seq<FileEntry>)
    requires forall i | 0 <= i < |files| :: !IsImageName(files[i].name)
    ensures Routes(l, files) == []
    decreases |files|
  {
    if |files| > 0 {
      NoImagesNoRoutes(l, files[..|files| - 1]);
    }
  }

  /** Each image goes to exactly one of the two destinations: the `not_found`
      directory (kept under its basename) when unmatched, the output directory
      (renamed to its barcode) when matched, and the two directories differ. */
  lemma DestinationExclusive(r: Route, outDir: string)
    ensures var w := Destination(r, outDir, Join(outDir, NotFoundDirName));
      && outDir != Join(outDir, NotFoundDirName)
      && (w.dir == outDir || w.dir == Join(outDir, NotFoundDirName))
      && (w.dir == Join(outDir, NotFoundDirName) <==> r.Unmatched?)
      && (r.Unmatched? ==> w.fileName == r.basename + OutputExtension)
      && (r.Renamed? ==> w.fileName == r.barcode + OutputExtension)
  {
    JoinEntryDiffers(outDir, NotFoundDirName);
  }

  /** The same exclusivity for the path the image is saved to, provided the
      barcode, like a listed basename, holds no `/`: the path ends in the
      written file name, lies below the output directory, and lies below the
      `not_found` directory exactly when the image is unmatched. */
  lemma SavedPathExclusive(r: Route, outDir: string)
    requires r.Renamed? ==> '/' !in r.barcode
    requires r.Unmatched? ==> '/' !in r.basename
    ensures var nf := Join(outDir, NotFoundDirName);
      var w := Destination(r, outDir, nf);
      && PathBasename(w.Path()) == w.fileName
      && Under(w.Path(), outDir)
      && (Under(w.Path(), nf) <==> r.Unmatched?)
  {
    var w := Destination(r, outDir, Join(outDir, NotFoundDirName));
    assert IsEntryName(w.fileName) by {
      assert w.fileName == (if r.Renamed? then r.barcode else r.basename) + OutputExtension;
    }
    JoinEntry(w.dir, w.fileName);
    if r.Unmatched? {
      JoinedInSubdir(outDir, NotFoundDirName, w.fileName);
    } else {
      JoinRelative(outDir, w.fileName);
      SiblingNotInSubdir(outDir, NotFoundDirName, w.fileName);
    }
  }

  /** One more listing entry extends the routes by that entry's route, if
      it has one. */
  lemma RoutesStep(l: Lookup, files: seq<FileEntry>, i: nat)
    requires i < |files|
    ensures Routes(l, files[..i + 1]) ==
      Routes(l, files[..i]) + (if Converted(files[i]) then [RouteOf(l, files[i])] else [])
    ensures !Converted(files[i]) ==> Routes(l, files[..i + 1]) == Routes(l, files[..i])
  {
    assert files[..i + 1][..i] == files[..i];
    assert Routes(l, files[..i]) + [] == Routes(l, files[..i]);
  }

  /** One more route extends the writes by its destination and the list by
      its basename when it is unmatched. */
  lemma RouteStepOutputs(rs: seq<Route>, r: Route, outDir: string, notFoundDir: string)
    ensures Writes(rs + [r], outDir, notFoundDir) == Writes(rs, outDir, notFoundDir) + [Destination(r, outDir, notFoundDir)]
    ensures NotFoundNames(rs + [r]) == NotFoundNames(rs) + (if r.Unmatched? then [r.basename] else [])
  {
    assert (rs + [r])[..|rs|] == rs;
  }

  /** The body of the source's per-file loop (new.py lines 60-106) for one
      entry: filter, match, decode, then write to one of the two
      destinations and, when unmatched, list the basename. Each result holds
      at most one element. */
  method ProcessFile(l: Lookup, f: FileEntry, outDir: string, notFoundDir: string)
    returns (written: seq<Write>, listed: seq<string>)
    ensures written == if Converted(f) then [Destination(RouteOf(l, f), outDir, notFoundDir)] else []
    ensures listed == if Converted(f) && RouteOf(l, f).Unmatched? then [RouteOf(l, f).basename] else []
  {
    written, listed := [], [];
    if IsImageName(f.name) {
      var b := Basename(f.name);
      var found, barcode := ScanForBarcode(l, b);
      if !f.decodes {
        return;
      }
      if found {
        written := [Write(outDir, barcode + OutputExtension)];
      } else {
        written := [Write(notFoundDir, b + OutputExtension)];
        listed := [b];
      }
    }
  }

  /** The source's per-folder loop (new.py lines 56-106): the list starts
      empty and every listed entry is handled in turn. It produces the writes
      and the list the routing defines. */
  method ProcessFolderFiles(l: Lookup, files: seq<FileEntry>, outDir: string)
    returns (writes: seq<Write>, notFound: seq<string>)
    ensures writes == Writes(Routes(l, files), outDir, Join(outDir, NotFoundDirName))
    ensures notFound == NotFoundNames(Routes(l, files))
  {
    var notFoundDir := Join(outDir, NotFoundDirName);
    writes, notFound := [], [];
    var i := 0;
    while i < |files|
      invariant 0 <= i <= |files|
      invariant writes == Writes(Routes(l, files[..i]), outDir, notFoundDir)
      invariant notFound == NotFoundNames(Routes(l, files[..i]))
    {
      var written, listed := ProcessFile(l, files[i], outDir, notFoundDir);
      RoutesStep(l, files, i);
      if Converted(files[i]) {
        RouteStepOutputs(Routes(l, files[..i]), RouteOf(l, files[i]), outDir, notFoundDir);
      }
      writes, notFound := writes + written, notFound + listed;
      i := i + 1;
    }
    assert files[..|files|] == files;
  }
}
