/** The drop zone's intake logic (`Dropzone`): the MIME-type filter for image
    mode, the paged directory read, the recursive folder scan that builds
    relative paths, and what a drop does. Directory entries are given as
    values: a directory carries the pages its reader returns, in order, and a
    file entry carries its `File`, or none when reading it fails. The error
    banner's three-second reset timer is not modelled. */
module Dropzone {
  import opened Common
  import opened Types

  datatype Mode = ImageMode | FolderMode

  /** The MIME types image mode accepts. */
  predicate Accepted(f: File) {
    f.mimeType == "image/png" || f.mimeType == "image/jpeg" || f.mimeType == "image/webp"
  }

  /** The banner a drop may raise; `NoNotice` leaves the banner as it was. */
  datatype Notice = NoNotice | Unsupported | NoFilesFound | ScanFailed

  /** What one intake hands to `onFilesAdded` (None when it is not called) and
      the banner it raises. */
  datatype Intake = Intake(added: Option<seq<File>>, notice: Notice)

  // ---------------------------------------------------------------------
  // validateAndAddFiles
  // ---------------------------------------------------------------------

  /** `validateAndAddFiles`: nothing for a null list; in image mode the
      accepted files, in order, if there are any, and the unsupported-type
      banner exactly when some file was refused; in folder mode every file. */
  function ValidateFiles(mode: Mode, fileList: Option<seq<File>>): (r: Intake)
    ensures fileList.None? ==> r == Intake(None, NoNotice)
    ensures fileList.Some? && mode == FolderMode ==> r == Intake(Some(fileList.value), NoNotice)
    ensures fileList.Some? && mode == ImageMode ==>
      (r.added.Some? <==> exists k :: 0 <= k < |fileList.value| && Accepted(fileList.value[k]))
      && (r.added.Some? ==> r.added.value == Filter(fileList.value, Accepted))
      && (r.notice == Unsupported <==> exists k :: 0 <= k < |fileList.value| && !Accepted(fileList.value[k]))
      && r.notice in {NoNotice, Unsupported}
  {
    match fileList
    case None => Intake(None, NoNotice)
    case Some(files) =>
      if mode == FolderMode then Intake(Some(files), NoNotice)
      else
        var valid := Filter(files, Accepted);
        assert |valid| > 0 ==> valid[0] in files;
        Intake(if |valid| > 0 then Some(valid) else None,
               if exists k :: 0 <= k < |files| && !Accepted(files[k]) then Unsupported else NoNotice)
  }

  /** Some file among the first `n + 1` is refused exactly when one among the
      first `n` is, or file `n` is. */
  lemma RefusedExtend(files: seq<File>, n: nat)
    requires n < |files|
    ensures (exists k :: 0 <= k < n + 1 && !Accepted(files[k]))
      <==> (exists k :: 0 <= k < n && !Accepted(files[k])) || !Accepted(files[n])
  {
    if exists k :: 0 <= k < n + 1 && !Accepted(files[k]) {
      var k :| 0 <= k < n + 1 && !Accepted(files[k]);
      if k < n {
        assert exists k' :: 0 <= k' < n && !Accepted(files[k']);
      }
    }
  }

  /** The `forEach` of `validateAndAddFiles`: push each accepted file, flag
      each refused one. */
  method SortOutFiles(files: seq<File>) returns (validFiles: seq<File>, hasInvalid: bool)
    ensures validFiles == Filter(files, Accepted)
    ensures hasInvalid <==> exists k :: 0 <= k < |files| && !Accepted(files[k])
  {
    validFiles := [];
    hasInvalid := false;
    for i := 0 to |files|
      invariant validFiles == Filter(files[..i], Accepted)
      invariant hasInvalid <==> exists k :: 0 <= k < i && !Accepted(files[k])
    {
      FilterExtend(files, i, Accepted);
      RefusedExtend(files, i);
      if Accepted(files[i]) {
        validFiles := validFiles + [files[i]];
      } else {
        hasInvalid := true;
      }
    }
    assert files[..|files|] == files;
  }

  /** `validateAndAddFiles`. */
  method ValidateAndAddFiles(mode: Mode, fileList: Option<seq<File>>) returns (r: Intake)
    ensures r == ValidateFiles(mode, fileList)
  {
    if fileList.None? {
      return Intake(None, NoNotice);
    }
    var files := fileList.value;
    if mode == FolderMode {
      return Intake(Some(files), NoNotice);
    }
    var validFiles, hasInvalid := SortOutFiles(files);
    var notice := if hasInvalid then Unsupported else NoNotice;
    if |validFiles| > 0 {
      r := Intake(Some(validFiles), notice);
    } else {
      r := Intake(None, notice);
    }
  }

  // ---------------------------------------------------------------------
  // Directory entries and readAllEntries
  // ---------------------------------------------------------------------

  /** What one `readEntries` call gives: a batch of entries, or a rejection. */
  datatype Page = Entries(items: seq<Entry>) | ReadFailed

  /** A dropped entry: a file (None when `entry.file` calls its error
      callback), a directory with the successive pages its reader returns,
      or anything else. */
  datatype Entry = FileEntry(name: string, file: Option<File>) | DirEntry(name: string, pages: seq<Page>) | OtherEntry

  /** Why a scan rejects: a `readEntries` call rejected. */
  datatype ScanError = ReadEntriesRejected

  /** `readAllEntries`: the entries of every page up to the first empty one
      (reading past the last page gives an empty page), or a rejection if a
      read before that rejects. */
  function ReadAll(pages: seq<Page>): Result<seq<Entry>, ScanError> {
    if pages == [] then Ok([])
    else match pages[0]
      case ReadFailed => Err(ReadEntriesRejected)
      case Entries(items) =>
        if items == [] then Ok([])
        else match ReadAll(pages[1..])
          case Err(e) => Err(e)
          case Ok(rest) => Ok(items + rest)
  }

  /** The page a reader returns on its `n`-th call. */
  function PageAt(pages: seq<Page>, n: nat): Page {
    if n < |pages| then pages[n] else Entries([])
  }

  /** The loop of `readAllEntries`: read a page, and while it is not empty,
      append it and read the next. */
  method ReadAllEntries(pages: seq<Page>) returns (r: Result<seq<Entry>, ScanError>)
    ensures r == ReadAll(pages)
  {
    var entries: seq<Entry> := [];
    var page := PageAt(pages, 0);
    var n := 1;
    if page.ReadFailed? {
      return Err(ReadEntriesRejected);
    }
    assert pages[0..] == pages;
    PrependNothing(ReadAll(pages));
    while |page.items| > 0
      invariant 1 <= n <= |pages| + 1
      invariant page == PageAt(pages, n - 1) && page.Entries?
      invariant |page.items| > 0 ==> n - 1 < |pages|
      invariant ReadAll(pages) == Prepend(entries, ReadAll(pages[n - 1..]))
      decreases |pages| + 1 - n
    {
      assert pages[n - 1..][0] == page && pages[n - 1..][1..] == pages[n..];
      PrependTwice(entries, page.items, ReadAll(pages[n..]));
      entries := entries + page.items;
      page := PageAt(pages, n);
      n := n + 1;
      if page.ReadFailed? {
        assert pages[n - 1..][0] == page;
        return Err(ReadEntriesRejected);
      }
    }
    if n - 1 < |pages| {
      assert pages[n - 1..][0] == page;
    }
    assert entries + [] == entries;
    return Ok(entries);
  }

  /** `entries` in front of a successful read; a rejection stays one. */
  function Prepend(entries: seq<Entry>, r: Result<seq<Entry>, ScanError>): Result<seq<Entry>, ScanError> {
    match r
    case Err(e) => Err(e)
    case Ok(rest) => Ok(entries + rest)
  }

  lemma PrependNothing(r: Result<seq<Entry>, ScanError>)
    ensures Prepend([], r) == r
  {
    if r.Ok? {
      assert [] + r.value == r.value;
    }
  }

  lemma PrependTwice(a: seq<Entry>, b: seq<Entry>, r: Result<seq<Entry>, ScanError>)
    ensures Prepend(a, Prepend(b, r)) == Prepend(a + b, r)
  {
    if r.Ok? {
      assert a + (b + r.value) == (a + b) + r.value;
    }
  }

  /** All the items of the pages, in order. */
  function Flatten(pages: seq<Page>): seq<Entry>
    requires forall k :: 0 <= k < |pages| ==> pages[k].Entries?
  {
    if pages == [] then [] else pages[0].items + Flatten(pages[1..])
  }

  /** When every page reads and none is empty, the result is all of their
      entries in order. */
  lemma {:induction false} ReadAllConcatenates(pages: seq<Page>)
    requires forall k :: 0 <= k < |pages| ==> pages[k].Entries? && pages[k].items != []
    ensures ReadAll(pages) == Ok(Flatten(pages))
  {
    if pages != [] {
      ReadAllConcatenates(pages[1..]);
    }
  }

  /** Reading stops at the first empty page: whatever the reader would give
      after it is never asked for. */
  lemma {:induction false} ReadAllStopsAtEmptyPage(pages: seq<Page>, more: seq<Page>, k: nat)
    requires k < |pages| && pages[k] == Entries([])
    ensures ReadAll(pages + more) == ReadAll(pages)
  {
    assert (pages + more)[0] == pages[0];
    if k > 0 && pages[0].Entries? && pages[0].items != [] {
      assert (pages + more)[1..] == pages[1..] + more;
      ReadAllStopsAtEmptyPage(pages[1..], more, k - 1);
    }
  }

  // ---------------------------------------------------------------------
  // traverseFileTree
  // ---------------------------------------------------------------------

  /** The files of two scans side by side; a rejection in either rejects
      (as `Promise.all` does). */
  function Combine(a: Result<seq<File>, ScanError>, b: Result<seq<File>, ScanError>): (r: Result<seq<File>, ScanError>)
    ensures r.Ok? <==> a.Ok? && b.Ok?
    ensures r.Ok? ==> r.value == a.value + b.value
    ensures r.Err? ==> r == Err(ReadEntriesRejected)
  {
    match a
    case Err(_) => Err(ReadEntriesRejected)
    case Ok(x) =>
      match b
      case Err(_) => Err(ReadEntriesRejected)
      case Ok(y) => Ok(x + y)
  }

  /** `traverseFileTree(entry, path)`: a file gets the relative path `path`
      followed by its name; an unreadable file or an entry that is neither
      file nor directory gives nothing; a directory gives its children's
      files, scanned under `path` + its name + `/`. */
  function Traverse(e: Entry, path: string): Result<seq<File>, ScanError>
    decreases e
  {
    match e
    case FileEntry(name, file) =>
      if file.None? then Ok([]) else Ok([file.value.(relativePath := path + name)])
    case DirEntry(name, pages) => TraversePages(pages, path + name + "/")
    case OtherEntry => Ok([])
  }

  /** The directory's pages, read in turn until the first empty one, each
      entry scanned under `path`. */
  function TraversePages(pages: seq<Page>, path: string): Result<seq<File>, ScanError>
    decreases pages
  {
    if pages == [] then Ok([])
    else match pages[0]
      case ReadFailed => Err(ReadEntriesRejected)
      case Entries(items) =>
        if items == [] then Ok([]) else Combine(TraverseList(items, path), TraversePages(pages[1..], path))
  }

  /** The entries scanned in turn under `path`, results flattened in order. */
  function TraverseList(items: seq<Entry>, path: string): Result<seq<File>, ScanError>
    decreases items
  {
    if items == [] then Ok([]) else Combine(Traverse(items[0], path), TraverseList(items[1..], path))
  }

  /** Side-by-side scans can be grouped either way. */
  lemma CombineAssociative(a: Result<seq<File>, ScanError>, b: Result<seq<File>, ScanError>, c: Result<seq<File>, ScanError>)
    ensures Combine(Combine(a, b), c) == Combine(a, Combine(b, c))
  {
    if a.Ok? && b.Ok? && c.Ok? {
      assert (a.value + b.value) + c.value == a.value + (b.value + c.value);
    }
  }

  /** Scanning a list laid end to end is scanning each part. */
  lemma {:induction false} TraverseListAppend(a: seq<Entry>, b: seq<Entry>, path: string)
    ensures TraverseList(a + b, path) == Combine(TraverseList(a, path), TraverseList(b, path))
  {
    if a == [] {
      assert a + b == b;
      var r := TraverseList(b, path);
      if r.Ok? {
        assert [] + r.value == r.value;
      }
    } else {
      assert (a + b)[0] == a[0] && (a + b)[1..] == a[1..] + b;
      TraverseListAppend(a[1..], b, path);
      CombineAssociative(Traverse(a[0], path), TraverseList(a[1..], path), TraverseList(b, path));
    }
  }

  /** A directory is scanned as the source does it: all of its entries are
      read first, then each is scanned; a rejected read rejects the scan. */
  lemma {:induction false} DirectoryReadsThenScans(pages: seq<Page>, path: string)
    ensures TraversePages(pages, path) ==
      match ReadAll(pages)
      case Err(e) => Err(e)
      case Ok(children) => TraverseList(children, path)
  {
    if pages != [] && pages[0].Entries? && pages[0].items != [] {
      DirectoryReadsThenScans(pages[1..], path);
      match ReadAll(pages[1..]) {
        case Err(_) =>
        case Ok(rest) => TraverseListAppend(pages[0].items, rest, path);
      }
    }
  }

  /** Every file found under `path` has a relative path that starts with
      `path`: a file entry's file gets exactly `path` and its name, and
      inside a directory the path grows by the directory's name and a
      slash. */
  lemma {:induction false} TraversePathPrefix(e: Entry, path: string)
    requires Traverse(e, path).Ok?
    ensures forall k :: 0 <= k < |Traverse(e, path).value| ==> path <= Traverse(e, path).value[k].relativePath
    ensures e.FileEntry? ==>
      forall k :: 0 <= k < |Traverse(e, path).value| ==> Traverse(e, path).value[k].relativePath == path + e.name
    ensures e.DirEntry? ==>
      forall k :: 0 <= k < |Traverse(e, path).value| ==> path + e.name + "/" <= Traverse(e, path).value[k].relativePath
    decreases e
  {
    match e
    case FileEntry(name, file) =>
    case DirEntry(name, pages) =>
      PagesPathPrefix(pages, path + name + "/");
      forall k | 0 <= k < |Traverse(e, path).value| ensures path <= Traverse(e, path).value[k].relativePath {
        PrefixTrans(path, path + name + "/", Traverse(e, path).value[k].relativePath);
      }
    case OtherEntry =>
  }

  /** A prefix of a prefix is a prefix. */
  lemma PrefixTrans(a: string, b: string, c: string)
    requires a <= b && b <= c
    ensures a <= c
  {
  }

  lemma {:induction false} PagesPathPrefix(pages: seq<Page>, path: string)
    requires TraversePages(pages, path).Ok?
    ensures forall k :: 0 <= k < |TraversePages(pages, path).value| ==> path <= TraversePages(pages, path).value[k].relativePath
    decreases pages
  {
    if pages != [] && pages[0].Entries? && pages[0].items != [] {
      ListPathPrefix(pages[0].items, path);
      PagesPathPrefix(pages[1..], path);
    }
  }

  /** The same for a list of entries, as dropped at the root: every file
      found lies under the name of one of the listed file or directory
      entries. */
  lemma {:induction false} ListPathPrefix(items: seq<Entry>, path: string)
    requires TraverseList(items, path).Ok?
    ensures forall k :: 0 <= k < |TraverseList(items, path).value| ==> path <= TraverseList(items, path).value[k].relativePath
    ensures forall k :: 0 <= k < |TraverseList(items, path).value| ==>
      exists j :: 0 <= j < |items| && !items[j].OtherEntry? && path + items[j].name <= TraverseList(items, path).value[k].relativePath
    decreases items
  {
    if items != [] {
      var first := Traverse(items[0], path);
      var rest := TraverseList(items[1..], path);
      var all := TraverseList(items, path).value;
      TraversePathPrefix(items[0], path);
      ListPathPrefix(items[1..], path);
      assert all == first.value + rest.value;
      forall k | 0 <= k < |all|
        ensures exists j :: 0 <= j < |items| && !items[j].OtherEntry? && path + items[j].name <= all[k].relativePath
      {
        if k < |first.value| {
          assert all[k] == first.value[k];
          if items[0].DirEntry? {
            PrefixTrans(path + items[0].name, path + items[0].name + "/", all[k].relativePath);
          }
          assert !items[0].OtherEntry? && path + items[0].name <= all[k].relativePath;
        } else {
          var m := k - |first.value|;
          assert all[k] == rest.value[m];
          var j :| 0 <= j < |items[1..]| && !items[1..][j].OtherEntry? && path + items[1..][j].name <= rest.value[m].relativePath;
          assert items[1..][j] == items[j + 1];
        }
      }
    }
  }

  /** A file two folders deep gets the path `outer/inner/name`. */
  lemma NestedPathExample(f: File)
    ensures Traverse(DirEntry("outer", [Entries([DirEntry("inner", [Entries([FileEntry("a.png", Some(f))])])])]), "")
      == Ok([f.(relativePath := "outer/inner/a.png")])
  {
    var inner := DirEntry("inner", [Entries([FileEntry("a.png", Some(f))])]);
    assert "" + "outer" + "/" == "outer/";
    assert "outer/" + "inner" + "/" == "outer/inner/";
    assert "outer/inner/" + "a.png" == "outer/inner/a.png";
    var found := [f.(relativePath := "outer/inner/a.png")];
    assert found + [] == found;
    var fe := FileEntry("a.png", Some(f));
    assert Traverse(fe, "outer/inner/") == Ok(found);
    assert [fe][1..] == [];
    assert TraverseList([fe], "outer/inner/") == Combine(Ok(found), Ok([]));
    assert [Entries([fe])][1..] == [];
    assert TraversePages([Entries([fe])], "outer/inner/") == Combine(Ok(found), Ok([]));
    assert Traverse(inner, "outer/") == TraversePages([Entries([fe])], "outer/inner/");
    assert [inner][1..] == [];
    assert TraverseList([inner], "outer/") == Combine(Ok(found), Ok([]));
    assert [Entries([inner])][1..] == [];
    assert TraversePages([Entries([inner])], "outer/") == Combine(Ok(found), Ok([]));
  }

  // ---------------------------------------------------------------------
  // handleDrop
  // ---------------------------------------------------------------------

  /** The entries `webkitGetAsEntry` gives for the dropped items, with the
      nulls dropped. */
  function PresentEntries(items: seq<Option<Entry>>): (r: seq<Entry>)
    ensures |r| <= |items|
    ensures forall e :: e in r <==> Some(e) in items
  {
    if items == [] then []
    else
      assert items == [items[0]] + items[1..];
      (if items[0].Some? then [items[0].value] else []) + PresentEntries(items[1..])
  }

  /** The entries of two lists of items one after the other are the
      entries of each, in order. */
  lemma {:induction false} PresentEntriesAppend(a: seq<Option<Entry>>, b: seq<Option<Entry>>)
    ensures PresentEntries(a + b) == PresentEntries(a) + PresentEntries(b)
  {
    if a == [] {
      assert a + b == b;
    } else {
      assert (a + b)[0] == a[0];
      assert (a + b)[1..] == a[1..] + b;
      PresentEntriesAppend(a[1..], b);
    }
  }

  /** What an accepted drop does: in folder mode with at least one entry,
      scan them all and pass on every file found (or raise "no files found",
      or "failed to scan" when a read rejects); otherwise validate the
      dropped file list. */
  function DropIntake(mode: Mode, items: seq<Option<Entry>>, fileList: Option<seq<File>>): (r: Intake)
    ensures mode == ImageMode || |PresentEntries(items)| == 0 ==> r == ValidateFiles(mode, fileList)
    ensures mode == FolderMode && |PresentEntries(items)| > 0 ==>
      (r.added.Some? ==> |r.added.value| > 0)
      && (r.notice == ScanFailed <==> TraverseList(PresentEntries(items), "").Err?)
      && (r.added.None? <==> r.notice != NoNotice)
    ensures mode == FolderMode && |PresentEntries(items)| > 0 ==>
      match TraverseList(PresentEntries(items), "")
      case Ok(files) =>
        (|files| > 0 ==> r == Intake(Some(files), NoNotice))
        && (|files| == 0 ==> r == Intake(None, NoFilesFound))
      case Err(_) => r == Intake(None, ScanFailed)
  {
    var entries := PresentEntries(items);
    if mode == FolderMode && |entries| > 0 then
      match TraverseList(entries, "")
      case Err(_) => Intake(None, ScanFailed)
      case Ok(files) => if |files| > 0 then Intake(Some(files), NoNotice) else Intake(None, NoFilesFound)
    else ValidateFiles(mode, fileList)
  }

  /** The drop zone's own state. */
  class DropzoneState {
    var isDragActive: bool
    var isScanning: bool
    var notice: Notice

    constructor ()
      ensures !isDragActive && !isScanning && notice == NoNotice
    {
      isDragActive := false;
      isScanning := false;
      notice := NoNotice;
    }

    /** `handleDrop`: the highlight goes off; a drop while the zone is
        disabled or a scan is running is ignored; otherwise the intake runs
        (with the scanning flag up for a folder scan) and its files are
        returned as passed to `onFilesAdded`. */
    method HandleDrop(disabled: bool, mode: Mode, items: seq<Option<Entry>>, fileList: Option<seq<File>>)
      returns (added: Option<seq<File>>)
      modifies this
      ensures !isDragActive
      ensures disabled || old(isScanning) ==> added.None? && notice == old(notice) && isScanning == old(isScanning)
      ensures !disabled && !old(isScanning) ==>
        var intake := DropIntake(mode, items, fileList);
        added == intake.added && !isScanning
        && notice == (if intake.notice == NoNotice then old(notice) else intake.notice)
    {
      isDragActive := false;
      if disabled || isScanning {
        return None;
      }
      var entries := PresentEntries(items);
      var intake: Intake;
      if mode == FolderMode && |entries| > 0 {
        isScanning := true;
        var scanned := TraverseList(entries, "");
        if scanned.Err? {
          intake := Intake(None, ScanFailed);
        } else if |scanned.value| > 0 {
          intake := Intake(Some(scanned.value), NoNotice);
        } else {
          intake := Intake(None, NoFilesFound);
        }
        isScanning := false;
      } else {
        intake := ValidateAndAddFiles(mode, fileList);
      }
      if intake.notice != NoNotice {
        notice := intake.notice;
      }
      added := intake.added;
    }
  }
}
