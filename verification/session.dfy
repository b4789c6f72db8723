/** Properties of sequences of provider operations: what a session reset
    forgets, when a second listing repeats the first, which later calls a
    listing makes possible, and what keying the cache by bare name implies.
 */
module Session {
  import opened Wrappers
  import opened Paths
  import opened DriveFiles
  import opened PathCache
  import opened Provider

  /** The folder a `read_dir(path)` that does not panic lists answers. */
  predicate ListingSucceeds(g: GDrive, credentials: Result<()>, path: string, api: DriveApi, fmt: string -> Option<string>) {
    && ReadDirPanicFree(g, credentials, path, api, fmt)
    && (g.signedIn || credentials.Ok?)
    && api.childrenOf(ParentId(CacheAfterLogin(g), path)).Ok?
  }

  /** The children that listing returns. */
  function Children(g: GDrive, credentials: Result<()>, path: string, api: DriveApi, fmt: string -> Option<string>): seq<File>
    requires ListingSucceeds(g, credentials, path, api, fmt)
  {
    Listed(api.childrenOf(ParentId(CacheAfterLogin(g), path)).value)
  }

  /** A successful `read_dir` changes exactly the keys of the listed children:
      each listed name now maps to the child at its last position, every other
      key of the starting cache keeps its value, and nothing else is added. */
  lemma ReadDirChangesOnlyListedNames(g: GDrive, credentials: Result<()>, path: string, api: DriveApi, fmt: string -> Option<string>)
    requires ListingSucceeds(g, credentials, path, api, fmt)
    ensures var s := ReadDir(g, credentials, path, api, fmt);
      var files := Children(g, credentials, path, api, fmt);
      && s.result.Ok? && |s.result.value| == |files|
      && (forall k :: k in s.next.cache <==> k in CacheAfterLogin(g) || NameListed(files, k))
      && (forall k :: k in CacheAfterLogin(g) && !NameListed(files, k) ==> s.next.cache[k] == CacheAfterLogin(g)[k])
      && (forall i :: LastOfName(files, i) ==> files[i].name.value in s.next.cache && s.next.cache[files[i].name.value] == files[i])
  {
    InsertChildrenByPosition(CacheAfterLogin(g), Children(g, credentials, path, api, fmt));
  }

  /** A failed `read_dir` inserts nothing: the cache afterwards is the one
      before, or the root alone when the lazy authentication took place. */
  lemma ReadDirFailureInsertsNothing(g: GDrive, credentials: Result<()>, path: string, api: DriveApi, fmt: string -> Option<string>)
    requires ReadDirPanicFree(g, credentials, path, api, fmt)
    requires ReadDir(g, credentials, path, api, fmt).result.Err?
    ensures var c := ReadDir(g, credentials, path, api, fmt).next.cache;
      c == g.cache || (!g.signedIn && IsRootOnly(c))
    ensures ReadDir(g, credentials, path, api, fmt).next.cache.Keys <= g.cache.Keys + {RootKey}
  {
  }

  /** After a successful `sign_out` the session is gone and the next call to
      `read_dir` authenticates again: the only path it can resolve is one
      whose last component is the root key, and every entry cached before the
      sign-out that this listing does not re-insert is forgotten. */
  lemma SignOutThenReadDirResets(g: GDrive, credentials: Result<()>, path: string, api: DriveApi, fmt: string -> Option<string>)
    requires credentials.Ok?
    requires ReadDirPanicFree(SignOut(g, Ok(())).next, credentials, path, api, fmt)
    ensures FileName(path) == Some(RootKey)
    ensures var s := ReadDir(SignOut(g, Ok(())).next, credentials, path, api, fmt);
      s.next.signedIn
      && forall k :: k in s.next.cache ==> k == RootKey || NameListed(Listed(api.childrenOf(RootId).value), k)
  {
    var g' := SignOut(g, Ok(())).next;
    assert CacheAfterLogin(g') == RootCache();
    assert ParentId(RootCache(), path) == RootId;
    var s := ReadDir(g', credentials, path, api, fmt);
    if s.result.Ok? {
      assert ListingSucceeds(g', credentials, path, api, fmt);
      ReadDirChangesOnlyListedNames(g', credentials, path, api, fmt);
    }
  }

  /** After a successful `sign_out`, `download_file` and `search_for` also
      authenticate again and leave the root alone in the cache; a download
      can then only resolve a path whose text after the last '/' is the root
      key. */
  lemma SignOutThenDownloadOrSearchResets(g: GDrive, credentials: Result<()>, path: string, tempDir: string, fragment: string, api: DriveApi)
    requires credentials.Ok?
    requires DownloadPanicFree(SignOut(g, Ok(())).next, credentials, path)
    requires SearchPanicFree(api.nameContains(fragment))
    ensures AfterLastSlash(path) == RootKey
    ensures var d := DownloadFile(SignOut(g, Ok(())).next, credentials, path, tempDir, api);
      d.next.signedIn && IsRootOnly(d.next.cache)
    ensures var s := SearchFor(SignOut(g, Ok(())).next, credentials, fragment, api);
      s.next.signedIn && IsRootOnly(s.next.cache)
  {
  }

  /** Right after construction, listing the root key queries Drive for the
      children of the folder aliased "root". */
  lemma NewListsRootFolder(credentials: Result<()>, api: DriveApi, fmt: string -> Option<string>)
    requires credentials.Ok?
    requires ListingPanicFree(api.childrenOf(RootId), fmt)
    ensures ReadDirPanicFree(New(), credentials, RootKey, api, fmt)
    ensures ReadDir(New(), credentials, RootKey, api, fmt).result.Ok? <==> api.childrenOf(RootId).Ok?
    ensures api.childrenOf(RootId).Ok? ==>
      ReadDir(New(), credentials, RootKey, api, fmt).result == Ok(ToFDirs(RootKey, Listed(api.childrenOf(RootId).value), fmt))
  {
    assert FileName(RootKey) == Some(RootKey);
  }

  /** Listing the same folder twice against an unchanged Drive repeats the
      first listing and leaves the cache as the first one left it, provided
      no listed child carries the folder's own name (such a child would take
      over the folder's cache key; see FolderWithNamesakeChild). */
  lemma {:induction false} ReadDirIdempotent(g: GDrive, credentials: Result<()>, path: string, api: DriveApi, fmt: string -> Option<string>)
    requires ListingSucceeds(g, credentials, path, api, fmt)
    requires !NameListed(Children(g, credentials, path, api, fmt), FileName(path).value)
    ensures ReadDirPanicFree(ReadDir(g, credentials, path, api, fmt).next, credentials, path, api, fmt)
    ensures ReadDir(ReadDir(g, credentials, path, api, fmt).next, credentials, path, api, fmt)
         == ReadDir(g, credentials, path, api, fmt)
  {
    var base := CacheAfterLogin(g);
    var files := Children(g, credentials, path, api, fmt);
    var s := ReadDir(g, credentials, path, api, fmt);
    var name := FileName(path).value;
    LastNamedIsLastOfName(files, name);
    assert s.next.cache[name] == base[name];
    assert ParentId(s.next.cache, path) == ParentId(base, path);
    InsertChildrenIdempotent(base, files);
  }

  /** An entry a successful `read_dir` returned can be listed next: its path
      ends in its name, that name is cached with the child at its last
      position, and so `read_dir` on the entry's path does not panic as long
      as that child has an id and its own listing can be projected. */
  lemma {:induction false} ListedEntryCanBeListed(g: GDrive, credentials: Result<()>, path: string, api: DriveApi, fmt: string -> Option<string>, i: int)
    requires ListingSucceeds(g, credentials, path, api, fmt)
    requires var files := Children(g, credentials, path, api, fmt);
      && LastOfName(files, i)
      && PlainName(files[i].name.value) && '\\' !in files[i].name.value
      && files[i].id.Some?
      && ListingPanicFree(api.childrenOf(files[i].id.value), fmt)
    ensures var s := ReadDir(g, credentials, path, api, fmt);
      var files := Children(g, credentials, path, api, fmt);
      && s.result.Ok?
      && FileName(s.result.value[i].path) == Some(files[i].name.value)
      && ReadDirPanicFree(s.next, credentials, s.result.value[i].path, api, fmt)
      && ParentId(s.next.cache, s.result.value[i].path) == files[i].id.value
  {
    var files := Children(g, credentials, path, api, fmt);
    var s := ReadDir(g, credentials, path, api, fmt);
    ReadDirChangesOnlyListedNames(g, credentials, path, api, fmt);
    assert s.result.value[i] == ToFDir(path, files[i], fmt);
    ToFDirPath(path, files[i], fmt);
  }

  /** An entry a successful `read_dir` of a non-empty path returned can be
      downloaded next: the text after its last '/' is its name, which is
      cached with the child at its last position. */
  lemma {:induction false} ListedEntryCanBeDownloaded(g: GDrive, credentials: Result<()>, path: string, api: DriveApi, fmt: string -> Option<string>, i: int)
    requires ListingSucceeds(g, credentials, path, api, fmt)
    requires path != ""
    requires var files := Children(g, credentials, path, api, fmt);
      && LastOfName(files, i)
      && PlainName(files[i].name.value) && '\\' !in files[i].name.value
      && files[i].id.Some?
    ensures var s := ReadDir(g, credentials, path, api, fmt);
      var files := Children(g, credentials, path, api, fmt);
      && s.result.Ok?
      && DownloadPanicFree(s.next, credentials, s.result.value[i].path)
      && AfterLastSlash(s.result.value[i].path) == files[i].name.value
      && s.next.cache[AfterLastSlash(s.result.value[i].path)] == files[i]
  {
    var files := Children(g, credentials, path, api, fmt);
    var s := ReadDir(g, credentials, path, api, fmt);
    ReadDirChangesOnlyListedNames(g, credentials, path, api, fmt);
    assert s.result.value[i] == ToFDir(path, files[i], fmt);
    ToFDirPath(path, files[i], fmt);
  }

  /** `read_dir` resolves only the last component of its path: two paths
      ending in the same name list the same folder and leave the same cache,
      whatever precedes that name. */
  lemma ReadDirIgnoresPathPrefix(g: GDrive, credentials: Result<()>, p1: string, p2: string, api: DriveApi, fmt: string -> Option<string>)
    requires ReadDirPanicFree(g, credentials, p1, api, fmt)
    requires FileName(p1) == FileName(p2)
    ensures ReadDirPanicFree(g, credentials, p2, api, fmt)
    ensures ReadDir(g, credentials, p1, api, fmt).next == ReadDir(g, credentials, p2, api, fmt).next
    ensures ReadDir(g, credentials, p1, api, fmt).result.Ok? <==> ReadDir(g, credentials, p2, api, fmt).result.Ok?
  {
  }

  /** `search_for` does not depend on what the cache holds: two providers in
      the same session state return the same results for the same query. */
  lemma SearchIgnoresCache(g1: GDrive, g2: GDrive, credentials: Result<()>, fragment: string, api: DriveApi)
    requires g1.signedIn == g2.signedIn
    requires (g1.signedIn || credentials.Ok?) ==> SearchPanicFree(api.nameContains(fragment))
    ensures SearchFor(g1, credentials, fragment, api).result == SearchFor(g2, credentials, fragment, api).result
  {
  }

  /** A search hit with a file MIME type is a file, a folder hit a directory,
      and each hit is reported at depth 0 under its bare name. */
  lemma SearchEntryKinds(g: GDrive, credentials: Result<()>, fragment: string, api: DriveApi, i: int)
    requires (g.signedIn || credentials.Ok?) ==> SearchPanicFree(api.nameContains(fragment))
    requires SearchFor(g, credentials, fragment, api).result.Ok?
    requires 0 <= i < |SearchFor(g, credentials, fragment, api).result.value|
    ensures var e := SearchFor(g, credentials, fragment, api).result.value[i];
      var f := Listed(api.nameContains(fragment).value)[i];
      && e.path == e.name == f.name.value
      && e.depth == 0
      && (e.isDir <==> f.mimeType == Some(FolderMime))
      && e.isDir != e.isFile
  {
  }

  // ---- Concrete examples ----
  // The two top-level examples are SameNameInTwoFolders and
  // FolderWithNamesakeChild; the lemmas and functions below them are their
  // single steps and fixtures.

  /** Within session `g`, `download_file(path)` does not panic and fetches
      the Drive object with id `id`. */
  predicate DownloadFetches(g: GDrive, path: string, id: string) {
    g.signedIn && DownloadPanicFree(g, Ok(()), path) && g.cache[AfterLastSlash(path)].id == Some(id)
  }

  /** One listed child is one insertion. */
  lemma InsertOneChild(c: Cache, f: File)
    requires f.name.Some?
    ensures InsertChildren(c, [f]) == c[f.name.value := f]
  {
    assert [f][1..] == [];
  }

  /** `read_dir` within a session, on a folder whose listing is known. */
  lemma ReadDirInSession(g: GDrive, path: string, api: DriveApi, fmt: string -> Option<string>, files: seq<File>)
    requires g.signedIn
    requires ReadDirPanicFree(g, Ok(()), path, api, fmt)
    requires api.childrenOf(ParentId(g.cache, path)) == Ok(Some(files))
    ensures AllNamed(files) && forall i :: 0 <= i < |files| ==> ListableChild(files[i], fmt)
    ensures ReadDir(g, Ok(()), path, api, fmt) == Step(GDrive(true, InsertChildren(g.cache, files)), Ok(ToFDirs(path, files, fmt)))
  {
    assert Listed(api.childrenOf(ParentId(g.cache, path)).value) == files;
  }

  // A concrete Drive: folder "a" (id "A") and folder "b" (id "B") each hold a
  // file named "notes.txt"; their ids are "A1" and "B1".

  /** A file "notes.txt" with the given id. */
  function NotesIn(id: string): File {
    File(Some("notes.txt"), Some(id), Some("text/plain"), Some("3"), Some("txt"), Some("2024-01-01T00:00:00Z"))
  }

  /** The Drive holding folders a and b, each with its own "notes.txt". */
  function TwoFolders(): DriveApi {
    DriveApi(
      id => if id == "A" then Ok(Some([NotesIn("A1")])) else if id == "B" then Ok(Some([NotesIn("B1")])) else Ok(None),
      fragment => Ok(None),
      (id, saved) => Ok(()))
  }

  /** The cache of the concrete examples: the root and two folders a and b. */
  function FoldersAB(): Cache {
    RootCache()["a" := File(Some("a"), Some("A"), Some(FolderMime), None, None, None)]
               ["b" := File(Some("b"), Some("B"), Some(FolderMime), None, None, None)]
  }

  /** FoldersAB after listing folder a. */
  function AfterListingA(): Cache {
    FoldersAB()["notes.txt" := NotesIn("A1")]
  }

  /** Step 1 of `SameNameInTwoFolders`: listing folder a inserts its "notes.txt". */
  lemma ListFolderA(fmt: string -> Option<string>)
    requires fmt("2024-01-01T00:00:00Z").Some?
    ensures ReadDirPanicFree(GDrive(true, FoldersAB()), Ok(()), "gdrive:/a", TwoFolders(), fmt)
    ensures ReadDir(GDrive(true, FoldersAB()), Ok(()), "gdrive:/a", TwoFolders(), fmt)
         == Step(GDrive(true, AfterListingA()), Ok(ToFDirs("gdrive:/a", [NotesIn("A1")], fmt)))
  {
    FileNameAfterSeparator("gdrive:/", "a");
    assert "gdrive:/" + "a" == "gdrive:/a";
    assert ParentId(FoldersAB(), "gdrive:/a") == "A";
    assert ListableChild(NotesIn("A1"), fmt);
    ReadDirInSession(GDrive(true, FoldersAB()), "gdrive:/a", TwoFolders(), fmt, [NotesIn("A1")]);
    InsertOneChild(FoldersAB(), NotesIn("A1"));
  }

  /** Step 2 of `SameNameInTwoFolders`: listing folder b overwrites "notes.txt". */
  lemma ListFolderBAfterA(fmt: string -> Option<string>)
    requires fmt("2024-01-01T00:00:00Z").Some?
    ensures ReadDirPanicFree(GDrive(true, AfterListingA()), Ok(()), "gdrive:/b", TwoFolders(), fmt)
    ensures ReadDir(GDrive(true, AfterListingA()), Ok(()), "gdrive:/b", TwoFolders(), fmt).next
         == GDrive(true, AfterListingA()["notes.txt" := NotesIn("B1")])
  {
    FileNameAfterSeparator("gdrive:/", "b");
    assert "gdrive:/" + "b" == "gdrive:/b";
    assert ParentId(AfterListingA(), "gdrive:/b") == "B";
    assert ListableChild(NotesIn("B1"), fmt);
    ReadDirInSession(GDrive(true, AfterListingA()), "gdrive:/b", TwoFolders(), fmt, [NotesIn("B1")]);
    InsertOneChild(AfterListingA(), NotesIn("B1"));
  }

  /** Same-named files in different folders share one cache entry: after
      listing folder a and then folder b, downloading the entry the first
      listing returned for a's "notes.txt" fetches b's file instead. */
  lemma SameNameInTwoFolders(fmt: string -> Option<string>)
    requires fmt("2024-01-01T00:00:00Z").Some?
    ensures ReadDirPanicFree(GDrive(true, FoldersAB()), Ok(()), "gdrive:/a", TwoFolders(), fmt)
    ensures var s1 := ReadDir(GDrive(true, FoldersAB()), Ok(()), "gdrive:/a", TwoFolders(), fmt);
      && s1.result.Ok? && |s1.result.value| == 1
      && ReadDirPanicFree(s1.next, Ok(()), "gdrive:/b", TwoFolders(), fmt)
      && var entry := s1.result.value[0];
      && var s2 := ReadDir(s1.next, Ok(()), "gdrive:/b", TwoFolders(), fmt);
      && DownloadFetches(s2.next, entry.path, "B1")
  {
    ListFolderA(fmt);
    var s1 := ReadDir(GDrive(true, FoldersAB()), Ok(()), "gdrive:/a", TwoFolders(), fmt);
    assert s1.next == GDrive(true, AfterListingA());
    var entry := s1.result.value[0];
    EntryOfNotesInA(fmt);
    assert '/' in entry.path && AfterLastSlash(entry.path) == "notes.txt";
    ListFolderBAfterA(fmt);
    DownloadNotesAfterB(entry.path);
  }

  /** After both listings, a path ending in "notes.txt" downloads b's file. */
  lemma DownloadNotesAfterB(path: string)
    requires '/' in path && AfterLastSlash(path) == "notes.txt"
    ensures DownloadFetches(GDrive(true, AfterListingA()["notes.txt" := NotesIn("B1")]), path, "B1")
  {
  }

  /** The entry listing folder a returns for its "notes.txt" ends in that name. */
  lemma EntryOfNotesInA(fmt: string -> Option<string>)
    requires fmt("2024-01-01T00:00:00Z").Some?
    ensures var e := ToFDirs("gdrive:/a", [NotesIn("A1")], fmt)[0];
      '/' in e.path && AfterLastSlash(e.path) == "notes.txt"
  {
    NotesIsPlain();
    assert ToFDirs("gdrive:/a", [NotesIn("A1")], fmt)[0] == ToFDir("gdrive:/a", NotesIn("A1"), fmt);
    ToFDirPath("gdrive:/a", NotesIn("A1"), fmt);
  }

  /** "notes.txt" is a plain, backslash-free name. */
  lemma NotesIsPlain()
    ensures PlainName("notes.txt") && '\\' !in "notes.txt"
  {
  }

  // A concrete Drive where folder "x" (id "X") holds a sub-folder also named
  // "x" (id "Y"), which holds one file "deep" (id "D").

  /** The sub-folder "x" (id "Y"). */
  function SubX(): File {
    File(Some("x"), Some("Y"), Some(FolderMime), None, None, Some("t"))
  }

  /** The file "deep" (id "D") inside the sub-folder. */
  function Deep(): File {
    File(Some("deep"), Some("D"), Some("text/plain"), None, None, Some("t"))
  }

  /** The Drive holding folder x, its sub-folder x and the file "deep". */
  function Namesake(): DriveApi {
    DriveApi(
      id => if id == "X" then Ok(Some([SubX()])) else if id == "Y" then Ok(Some([Deep()])) else Ok(None),
      fragment => Ok(None),
      (id, saved) => Ok(()))
  }

  /** The cache of the namesake example: the root and folder x. */
  function FolderX(): Cache {
    RootCache()["x" := File(Some("x"), Some("X"), Some(FolderMime), None, None, None)]
  }

  /** FolderX after listing folder x: its key now holds the sub-folder. */
  function AfterListingX(): Cache {
    FolderX()["x" := SubX()]
  }

  /** Step 1 of `FolderWithNamesakeChild`: listing x re-keys "x" to the sub-folder. */
  lemma ListFolderX(fmt: string -> Option<string>)
    requires fmt("t").Some?
    ensures ReadDirPanicFree(GDrive(true, FolderX()), Ok(()), "gdrive:/x", Namesake(), fmt)
    ensures ReadDir(GDrive(true, FolderX()), Ok(()), "gdrive:/x", Namesake(), fmt)
         == Step(GDrive(true, AfterListingX()), Ok(ToFDirs("gdrive:/x", [SubX()], fmt)))
  {
    FileNameAfterSeparator("gdrive:/", "x");
    assert "gdrive:/" + "x" == "gdrive:/x";
    assert ParentId(FolderX(), "gdrive:/x") == "X";
    assert ListableChild(SubX(), fmt);
    ReadDirInSession(GDrive(true, FolderX()), "gdrive:/x", Namesake(), fmt, [SubX()]);
    InsertOneChild(FolderX(), SubX());
  }

  /** Step 2 of `FolderWithNamesakeChild`: listing x again lists the sub-folder's child. */
  lemma ListFolderXAgain(fmt: string -> Option<string>)
    requires fmt("t").Some?
    ensures ReadDirPanicFree(GDrive(true, AfterListingX()), Ok(()), "gdrive:/x", Namesake(), fmt)
    ensures ReadDir(GDrive(true, AfterListingX()), Ok(()), "gdrive:/x", Namesake(), fmt).result
         == Ok(ToFDirs("gdrive:/x", [Deep()], fmt))
  {
    FileNameAfterSeparator("gdrive:/", "x");
    assert "gdrive:/" + "x" == "gdrive:/x";
    assert ParentId(AfterListingX(), "gdrive:/x") == "Y";
    assert ListableChild(Deep(), fmt);
    ReadDirInSession(GDrive(true, AfterListingX()), "gdrive:/x", Namesake(), fmt, [Deep()]);
  }

  /** Listing a folder that holds a child of its own name re-keys the folder:
      a second `read_dir` of the same path lists the child instead, so the
      listing is not idempotent in that case. */
  lemma FolderWithNamesakeChild(fmt: string -> Option<string>)
    requires fmt("t").Some?
    ensures ReadDirPanicFree(GDrive(true, FolderX()), Ok(()), "gdrive:/x", Namesake(), fmt)
    ensures var s1 := ReadDir(GDrive(true, FolderX()), Ok(()), "gdrive:/x", Namesake(), fmt);
      && s1.result.Ok? && |s1.result.value| == 1 && s1.result.value[0].name == "x"
      && ReadDirPanicFree(s1.next, Ok(()), "gdrive:/x", Namesake(), fmt)
      && var s2 := ReadDir(s1.next, Ok(()), "gdrive:/x", Namesake(), fmt);
      && s2.result.Ok? && |s2.result.value| == 1 && s2.result.value[0].name == "deep"
  {
    ListFolderX(fmt);
    ListFolderXAgain(fmt);
  }

  /** The saved path of `download_file` is the temp directory followed
      directly by the name. It names a file inside that directory only when
      the directory text ends with a separator; the Unix default "/tmp" does
      not, so "gdrive:/a.txt" would be saved as "/tmpa.txt". */
  lemma SavedPathPlacement(tempDir: string, name: string)
    requires '/' !in name
    ensures ('/' in tempDir + name && AfterLastSlash(tempDir + name) == name) <==>
      (tempDir != "" && tempDir[|tempDir| - 1] == '/')
    ensures "/tmp" + "a.txt" == "/tmpa.txt" && AfterLastSlash("/tmpa.txt") == "tmpa.txt"
  {
    var p := tempDir + name;
    if tempDir != "" && tempDir[|tempDir| - 1] == '/' {
      var q := tempDir[..|tempDir| - 1];
      assert p == q + "/" + name;
      AfterLastSlashOfName(q, name);
    }
    AfterLastSlashOfName("", "tmpa.txt");
    assert "" + "/" + "tmpa.txt" == "/tmpa.txt";
  }
}
