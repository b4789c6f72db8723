# CoDriver Google Drive provider: session and cache model

A Dafny model of the Google Drive provider of the CoDriver file manager
(`GDrive` in `src-tauri/src/gdrive.rs`). The provider holds two pieces of
state: an optional authenticated Drive session and a cache from a key to the
last Drive file descriptor seen under it. Its operations are:

- `new`, which seeds the cache with a synthetic root (key and name `gdrive:`, id `root`);
- `authenticate`, which opens a session and reseeds the cache with the root alone;
- `sign_out`, which drops the session;
- `is_authenticated`;
- `read_dir`, `download_file` and `search_for`, each of which authenticates lazily first.

The model is functional. `Provider.GDrive` is an immutable record
`(signedIn, cache)`. Every operation returns a `Step`: the next state together
with a `Result`. The Drive HTTP calls are the pure functions of
`Provider.DriveApi`. The provider issues one request per call and never
follows `next_page_token`, so a large folder or search yields only its first
page:

- `childrenOf(id)` stands for the first page of `files.list` with `'id' in parents`;
- `nameContains(fragment)` stands for the first page of `files.list` with `name contains`;
- `saveMedia(id, savePath)` stands for `get_media(id).save_to(savePath)`.

The outcome of the credentials step of `authenticate` and the outcome of
deleting `creds.json` in `sign_out` are `Result` parameters. The
timestamp parse-and-format of `read_dir` is the parameter `fmt`, which returns
`None` when the timestamp does not parse. The process temp directory is the
parameter `tempDir`.

Each `.unwrap()` that can panic becomes a `requires` clause, written through a
named predicate so that the panic condition is visible:

- `Provider.ReadDirPanicFree`: the path has a file name; that name is a cache key whose entry has an id; every listed child has a name, a MIME type and a parseable modification time.
- `Provider.DownloadPanicFree`: the path holds a `/`; the text after the last `/` is a cache key whose entry has an id.
- `DriveFiles.SearchableFile`: every hit has a name, a MIME type and a modification time, and its size text is numeric.

Each of these conditions applies to the cache as it stands after the lazy
authentication.

Files:

- `wrappers.dfy`: `Option` and `Result`.
- `paths.dfy`: `Path::file_name`, `PathBuf::join`, `rfind('/')` and the backslash replacement, with Unix separator rules.
- `drive_files.dfy`: the Drive `File` descriptor, `FDir`, `DirWalkerEntry`, and the projections between them.
- `path_cache.dfy`: the cache and the bare-name insertion that `read_dir` performs.
- `provider.dfy`: the provider state machine.
- `session.dfy`: properties of sequences of calls.

The cache is keyed by a child's **bare name**, not by `parent/child`. As a
result, two same-named files in different folders share
one entry, and the later listing wins (`Session.SameNameInTwoFolders`). A folder
that holds a child of its own name is re-keyed to that child
(`Session.FolderWithNamesakeChild`). `read_dir` resolves only the last
component of its path (`Session.ReadDirIgnoresPathPrefix`).

Further consequences of the code:

- a cache miss panics instead of returning a "not cached" error;
- search results are not inserted into the cache;
- listing sizes are passed through as text, with `"0"` when absent;
- extensions are passed through as Drive reports them, with `""` when absent.

`download_file` saves to `tempDir` followed directly by the name, with no
separator. The saved file therefore lies inside the temp directory only when
`tempDir` ends with a separator. The Unix default `/tmp` does not, and the name
`a.txt` would be saved as `/tmpa.txt` (`Session.SavedPathPlacement`).

## Model

| member | source | states |
|---|---|---|
| Provider.New | src-tauri/src/gdrive.rs:30-35 | a new provider holds no session and its cache holds exactly one entry, the root (key `gdrive:`, name `gdrive:`, id `root`, no other field) |
| PathCache.RootCache | src-tauri/src/gdrive.rs:209-215 | the root-only cache has the single key `gdrive:`, mapped to the synthetic root descriptor `DriveFiles.RootFile` (`construct_root_file`: name `gdrive:`, id `root`, no other field) |
| Provider.Authenticate | src-tauri/src/gdrive.rs:37-72 | succeeds exactly when the credentials step succeeds; success opens a session and leaves only the root in the cache, discarding all earlier entries; failure returns the credentials error and changes nothing |
| Provider.SignOut | src-tauri/src/gdrive.rs:74-78 | never touches the cache; success drops the session; if deleting the credentials file fails, the error is returned and the session is kept |
| Provider.IsAuthenticated | src-tauri/src/gdrive.rs:201-207 | returns an error, "Drive not authenticated", exactly when no session is held |
| Provider.EnsureSignedIn | src-tauri/src/gdrive.rs:81-83 | lazy authentication: a held session is left alone; otherwise authentication runs, and on success the cache is the root alone; on failure nothing changes |
| Provider.CacheAfterLogin | src-tauri/src/gdrive.rs:66-69 | the cache an operation starts from after lazy authentication: the current cache in a session, the root alone otherwise |
| Provider.ReadDir | src-tauri/src/gdrive.rs:80-135 | the folder queried is the id of the cache entry keyed by the path's file name alone (`Provider.ParentId`); succeeds exactly when lazy authentication and the listing of that id both succeed; on success the session is held, the cache is the starting cache with the listed children inserted, and there is one `FDir` per child in order; on failure the state is unchanged, or root-only if the lazy authentication took place; an error carries the credentials error when lazy authentication fails, and otherwise the error of the listing |
| Provider.DownloadFile | src-tauri/src/gdrive.rs:137-161 | downloads the object cached under the text after the last `/` to `tempDir` followed by that text, and returns that saved path; the state changes only through lazy authentication; succeeds exactly when the session is available and the save succeeds; an error carries the credentials error when lazy authentication fails, and otherwise the error of the save |
| Provider.SearchFor | src-tauri/src/gdrive.rs:163-197 | neither reads nor writes the cache beyond lazy authentication; succeeds exactly when the session is available and the query succeeds; gives one entry per hit, in order; an error carries the credentials error when lazy authentication fails, and otherwise the error of the query |
| PathCache.InsertChildren | src-tauri/src/gdrive.rs:106-110 | the keys afterwards are the old keys plus the listed names; each listed name maps to the last child carrying it, as found by scanning the listing from the end; every unlisted key keeps its old value |
| PathCache.InsertChildrenByPosition | src-tauri/src/gdrive.rs:106-110 | the same, by position: a listed name maps to the child at its last position in the listing, and the keys gained are exactly the listed names |
| PathCache.LastNamedIsLastOfName | src-tauri/src/gdrive.rs:107-109 | the file found by scanning the listing from the end exists exactly for the listed names, and it is the file at the last position carrying that name |
| PathCache.InsertChildrenIdempotent | src-tauri/src/gdrive.rs:106-110 | inserting the same listing a second time leaves the cache as the first insertion left it |
| DriveFiles.ToFDir | src-tauri/src/gdrive.rs:111-130 | `name` is the child's name; `is_dir` is 1 exactly for the folder MIME type, otherwise 0; `size` is the child's size or `"0"`; `extension` is the child's or `""`; `last_modified` is the formatted timestamp; the path is the parent joined with the name, every backslash replaced by `/`, so for a relative name it starts with the normalised parent; the path has no backslash |
| DriveFiles.ToFDirPath | src-tauri/src/gdrive.rs:113-118 | for a plain name without `\`, the record's path has the name as its file name, and, when the parent is non-empty, the text after its last `/` is the name (a name such as `a/b` or `a\b` does not come back) |
| DriveFiles.ToFDirs | src-tauri/src/gdrive.rs:105-132 | one listing record per child, in the children's order |
| DriveFiles.ToSearchEntry | src-tauri/src/gdrive.rs:182-192 | `path` equals `name`; `depth` is 0; `is_file` holds exactly when the MIME type is not the folder marker; `is_dir` is its negation; an absent size is 0 and a present one is its parsed value; an absent extension is `""`; `last_modified` is Drive's timestamp text |
| DriveFiles.ToSearchEntries | src-tauri/src/gdrive.rs:179-194 | one search record per hit, in the hits' order |
| DriveFiles.ParseUnsigned | src-tauri/src/gdrive.rs:189 | the value of an unsigned decimal (optional `+`, digits) is below 10 to the number of digits, and a single digit parses to its own value |
| DriveFiles.ParseUnsignedSign | src-tauri/src/gdrive.rs:189 | a leading `+` does not change the parsed value |
| DriveFiles.ParseUnsignedAppend | src-tauri/src/gdrive.rs:189 | appending a digit multiplies the value by ten and adds that digit |
| Paths.FileName | src-tauri/src/gdrive.rs:85 | `Path::file_name` returns a plain component (non-empty, not `.` or `..`, without `/`) that starts the path or follows a `/` and is followed only by empty and `.` components; a path without `/` is its own file name unless it is empty, `.` or `..` |
| Paths.FileNameSkipsTail | src-tauri/src/gdrive.rs:85 | appending trailing `/` and `/.` components does not change the file name |
| Paths.FileNameOfComponent | src-tauri/src/gdrive.rs:85 | conversely, a plain component after a separator, followed only by empty and `.` components, is the file name |
| Paths.FileNameOfParentLink | src-tauri/src/gdrive.rs:85 | a path whose last component that is not skipped is `..` has no file name, so `read_dir` panics on it |
| Paths.AfterLastSlash | src-tauri/src/gdrive.rs:142-143 | the text after the last `/` has no `/`, and the path is some prefix, then `/`, then that text |
| Paths.LastSlash | src-tauri/src/gdrive.rs:142 | `rfind('/')` returns a position holding `/` with no `/` after it |
| Paths.Join | src-tauri/src/gdrive.rs:113-114 | `PathBuf::join`: the result always ends with the name; an absolute name replaces the base; a relative name gives a result that starts with the base, is exactly one character longer than base plus name when the base is non-empty and lacks a trailing `/` (and no longer otherwise), and has `/` just before the name when the base is non-empty |
| Paths.ForwardSlashes | src-tauri/src/gdrive.rs:118 | every backslash becomes `/`, every other character is kept, and no backslash remains |
| Paths.FileNameOfJoin | src-tauri/src/gdrive.rs:113-118 | joining a plain, backslash-free name onto any base and normalising gives a path whose file name is that name |
| Paths.AfterLastSlashOfJoin | src-tauri/src/gdrive.rs:113-118 | for a non-empty base, the text after the last `/` of such a joined path is the name |
| Session.ReadDirChangesOnlyListedNames | src-tauri/src/gdrive.rs:106-110 | a successful listing changes exactly the listed names' keys; the last same-named child wins, and all other keys keep their values |
| Session.ReadDirFailureInsertsNothing | src-tauri/src/gdrive.rs:94-103 | a failed listing adds no key: the cache is unchanged, or root-only when lazy authentication took place |
| Session.SignOutThenReadDirResets | src-tauri/src/gdrive.rs:74-83 | after sign-out, `read_dir` re-authenticates; only a path ending in the root key can be resolved, and every earlier entry that the new listing does not re-insert is gone |
| Session.SignOutThenDownloadOrSearchResets | src-tauri/src/gdrive.rs:137-166 | after sign-out, `download_file` and `search_for` re-authenticate and leave the root alone in the cache; a download then resolves only the root key |
| Session.NewListsRootFolder | src-tauri/src/gdrive.rs:85-132 | on a new provider, listing `gdrive:` queries the children of the folder aliased `root`: it succeeds exactly when that query does, and then returns one record per child of `root` |
| Session.ReadDirIdempotent | src-tauri/src/gdrive.rs:85-110 | listing the same folder twice against an unchanged Drive repeats the result and the cache, provided no child carries the folder's own name |
| Session.ListedEntryCanBeListed | src-tauri/src/gdrive.rs:85-118 | for a returned entry whose child is the last one listed under its name, has a plain, backslash-free name and an id, and whose own listing can be projected: the entry's path has the child's name as file name, listing that path does not panic, and it queries the child's id |
| Session.ListedEntryCanBeDownloaded | src-tauri/src/gdrive.rs:108-145 | for a non-empty listed path and a returned entry whose child is the last one listed under its name and has a plain, backslash-free name and an id: the entry's path can be downloaded, and the text after its last `/` is the child's name, cached with that child. A name holding `/` breaks this, since the text after the last `/` is then only part of the cache key |
| Session.ReadDirIgnoresPathPrefix | src-tauri/src/gdrive.rs:85-92 | two paths with the same last component list the same folder and leave the same state |
| Session.SearchIgnoresCache | src-tauri/src/gdrive.rs:163-196 | search results do not depend on the cache contents |
| Session.SearchEntryKinds | src-tauri/src/gdrive.rs:182-188 | each search entry has its bare name as path, depth 0, is a directory exactly for the folder MIME type, and is exactly one of file or directory |
| Session.SameNameInTwoFolders | src-tauri/src/gdrive.rs:109 | after listing folder a and then folder b, each holding `notes.txt`, downloading a's entry resolves to b's file |
| Session.FolderWithNamesakeChild | src-tauri/src/gdrive.rs:85-109 | listing folder `x` that holds a sub-folder `x` re-keys `x`; the second listing of the same path shows the sub-folder's children |
| Session.SavedPathPlacement | src-tauri/src/gdrive.rs:147 | for a name without `/`, the text after the last `/` of the saved path is the name if and only if `tempDir` ends with `/`; with `/tmp`, the file name is `tmpa.txt` |

## Left out

- Loading, validating, refreshing and storing OAuth credentials (`src-tauri/src/gdrive.rs:38-64`). This is file I/O and OAuth inside `drive_v3`; its overall outcome is the `credentials` parameter.
- Deleting `creds.json` in `sign_out`. This is file I/O; its outcome is the `removal` parameter.
- The Drive HTTP requests themselves: query strings, the `fields` selection and the media download. They are foreign library calls, modelled by the functions of `DriveApi`.
- The `drive_v3` `File` fields other than name, id, MIME type, size, full file extension and modification time. The provider neither requests nor reads any other field.
- Timestamp parsing and formatting through chrono. This is foreign code, modelled by the `fmt` parameter.
- The value of `std::env::temp_dir()` (environment), modelled by the `tempDir` parameter. `dbg_log` (logging) is left out.
- Provider.ReadDir: a panic part-way through the child loop would leave the earlier children already inserted. The model instead requires that no child can panic, so that partial state is not modelled.
- DriveFiles.ParseUnsigned: does not model the overflow panic of the size parse. The integer type of `DirWalkerEntry.size` is declared in `utils.rs`, which is not part of this model.
- Paths.FileName: models Unix path rules only. On Windows, `\` is also a separator, and `join` inserts `\`; the later replacement by `/` is modelled, but Windows-specific component parsing is not.
- Paths.Join: models Unix `PathBuf::push` only; Windows prefixes and verbatim paths are not modelled.
- Non-UTF-8 paths (`to_str().unwrap()`). Dafny strings are always valid text.
- The front end (`ui/main_logic.js`, `ui/utils.js`): DOM construction, IPC wiring, toasts and drag-and-drop. `formatBytes` uses floating point.
- Result pages after the first. The provider never requests them, so `DriveApi` answers with a single page.
- Upload, recursive size, copy and folder creation. They are not part of this revision of the provider.
