/** The Google Drive provider `GDrive`: an optional authenticated session and
    a name-keyed cache of remote descriptors, with the operations
    `new`, `authenticate`, `sign_out`, `is_authenticated`, `read_dir`,
    `download_file` and `search_for`.

    Every operation returns the provider's next state together with its
    result, because the provider changes even when an operation fails after
    its lazy authentication succeeded. The Drive HTTP calls are the pure
    functions of `DriveApi`; the outcome of loading or refreshing credentials
    and of deleting the credentials file are parameters. A `.unwrap()` that
    would panic becomes a `requires`.
 */
module Provider {
  import opened Wrappers
  import opened Paths
  import opened DriveFiles
  import opened PathCache

  /** The Drive calls the provider issues. A listing answers the optional
      `files` array of a `files.list` reply. */
  datatype DriveApi = DriveApi(
    childrenOf: string -> Result<Option<seq<File>>>,
    nameContains: string -> Result<Option<seq<File>>>,
    saveMedia: (string, string) -> Result<()>)

  /** The provider state: whether a Drive session is held, and the cache. */
  datatype GDrive = GDrive(signedIn: bool, cache: Cache)

  /** The state after an operation and what the operation returned. */
  datatype Step<T> = Step(next: GDrive, result: Result<T>)

  /** The files of a listing reply; a reply without a `files` array lists nothing. */
  function Listed(reply: Option<seq<File>>): seq<File> {
    reply.UnwrapOr([])
  }

  /** `GDrive::new`: no session, the root alone in the cache. */
  function New(): (g: GDrive)
    ensures !g.signedIn
    ensures IsRootOnly(g.cache)
  {
    GDrive(false, RootCache())
  }

  /** `authenticate`, with `credentials` the outcome of loading, refreshing
      and storing the credentials. Success opens a session and reseeds the
      cache with the root alone, discarding every earlier entry; failure
      changes nothing. */
  function Authenticate(g: GDrive, credentials: Result<()>): (s: Step<()>)
    ensures s.result.Ok? <==> credentials.Ok?
    ensures credentials.Ok? ==> s.next.signedIn && IsRootOnly(s.next.cache)
    ensures credentials.Err? ==> s.next == g && s.result.error == credentials.error
  {
    match credentials
    case Err(e) => Step(g, Err(e))
    case Ok(_) => Step(GDrive(true, RootCache()), Ok(()))
  }

  /** `sign_out`, with `removal` the outcome of deleting the credentials
      file. Success drops the session; the cache is never touched. */
  function SignOut(g: GDrive, removal: Result<()>): (s: Step<()>)
    ensures s.next.cache == g.cache
    ensures s.result.Ok? <==> removal.Ok?
    ensures removal.Ok? ==> !s.next.signedIn
    ensures removal.Err? ==> s.next == g && s.result.error == removal.error
  {
    match removal
    case Err(e) => Step(g, Err(e))
    case Ok(_) => Step(GDrive(false, g.cache), Ok(()))
  }

  /** `is_authenticated`: an error exactly when no session is held. */
  function IsAuthenticated(g: GDrive): (r: Result<()>)
    ensures r.Err? <==> !g.signedIn
    ensures r.Err? ==> r.error == "Drive not authenticated"
  {
    if !g.signedIn then Err("Drive not authenticated") else Ok(())
  }

  /** The lazy authentication each remote operation starts with: nothing
      happens when a session is held, otherwise `authenticate` runs. */
  function EnsureSignedIn(g: GDrive, credentials: Result<()>): (s: Step<()>)
    ensures s.result.Ok? <==> g.signedIn || credentials.Ok?
    ensures s.result.Ok? ==> s.next.signedIn
    ensures g.signedIn || credentials.Err? ==> s.next == g
    ensures !g.signedIn && credentials.Ok? ==> IsRootOnly(s.next.cache)
    ensures s.result.Err? ==> s.result.error == credentials.error
  {
    if g.signedIn then Step(g, Ok(())) else Authenticate(g, credentials)
  }

  /** The cache an operation works on once its lazy authentication succeeded. */
  function CacheAfterLogin(g: GDrive): (c: Cache)
    ensures !g.signedIn ==> IsRootOnly(c)
    ensures g.signedIn ==> c == g.cache
  {
    if g.signedIn then g.cache else RootCache()
  }

  /** `k` is cached with an id, so `cache.get(k).unwrap().id.unwrap()` does not panic. */
  predicate Resolves(c: Cache, k: string) {
    k in c && c[k].id.Some?
  }

  /** Every child of a successful listing survives the unwraps of `read_dir`. */
  predicate ListingPanicFree(reply: Result<Option<seq<File>>>, fmt: string -> Option<string>) {
    reply.Ok? ==> forall i :: 0 <= i < |Listed(reply.value)| ==> ListableChild(Listed(reply.value)[i], fmt)
  }

  /** `read_dir(path)` does not panic: once signed in, the path has a file
      name, that name resolves in the cache, and the listing of the resolved
      id can be projected. */
  predicate ReadDirPanicFree(g: GDrive, credentials: Result<()>, path: string, api: DriveApi, fmt: string -> Option<string>) {
    (g.signedIn || credentials.Ok?) ==>
      && FileName(path).Some?
      && Resolves(CacheAfterLogin(g), FileName(path).value)
      && ListingPanicFree(api.childrenOf(CacheAfterLogin(g)[FileName(path).value].id.value), fmt)
  }

  /** The folder id `read_dir(path)` lists: that of the cache entry keyed by
      the path's last component alone. */
  function ParentId(c: Cache, path: string): (id: string)
    requires FileName(path).Some? && Resolves(c, FileName(path).value)
  {
    c[FileName(path).value].id.value
  }

  /** `read_dir`: lazily authenticate, list the children of the folder the
      path's last component names, insert each child under its bare name
      and project each into an `FDir`. */
  function ReadDir(g: GDrive, credentials: Result<()>, path: string, api: DriveApi, fmt: string -> Option<string>): (s: Step<seq<FDir>>)
    requires ReadDirPanicFree(g, credentials, path, api, fmt)
    ensures s.result.Ok? <==>
      (g.signedIn || credentials.Ok?) && api.childrenOf(ParentId(CacheAfterLogin(g), path)).Ok?
    ensures s.result.Ok? ==>
      var files := Listed(api.childrenOf(ParentId(CacheAfterLogin(g), path)).value);
      && s.next == GDrive(true, InsertChildren(CacheAfterLogin(g), files))
      && s.result.value == ToFDirs(path, files, fmt)
    ensures s.result.Err? && (g.signedIn || credentials.Err?) ==> s.next == g
    ensures s.result.Err? && !g.signedIn && credentials.Ok? ==> s.next.signedIn && IsRootOnly(s.next.cache)
    ensures s.result.Err? && !g.signedIn && credentials.Err? ==> s.result.error == credentials.error
    ensures s.result.Err? && (g.signedIn || credentials.Ok?) ==>
      s.result.error == api.childrenOf(ParentId(CacheAfterLogin(g), path)).error
  {
    var a := EnsureSignedIn(g, credentials);
    if a.result.Err? then Step(a.next, Err(a.result.error))
    else
      match api.childrenOf(ParentId(a.next.cache, path))
      case Err(e) => Step(a.next, Err(e))
      case Ok(reply) =>
        var files := Listed(reply);
        Step(GDrive(a.next.signedIn, InsertChildren(a.next.cache, files)), Ok(ToFDirs(path, files, fmt)))
  }

  /** `download_file(path)` does not panic: once signed in, the path holds a
      '/' and the text after the last one resolves in the cache. */
  predicate DownloadPanicFree(g: GDrive, credentials: Result<()>, path: string) {
    (g.signedIn || credentials.Ok?) ==> '/' in path && Resolves(CacheAfterLogin(g), AfterLastSlash(path))
  }

  /** `download_file`: lazily authenticate, look up the text after the last
      '/' of the path, save the object's content to `tempDir` followed
      directly by that name, and return that saved path. The cache is only
      touched by the lazy authentication. */
  function DownloadFile(g: GDrive, credentials: Result<()>, path: string, tempDir: string, api: DriveApi): (s: Step<string>)
    requires DownloadPanicFree(g, credentials, path)
    ensures s.next == (if g.signedIn || credentials.Err? then g else GDrive(true, RootCache()))
    ensures s.result.Ok? <==>
      (g.signedIn || credentials.Ok?)
      && api.saveMedia(CacheAfterLogin(g)[AfterLastSlash(path)].id.value, tempDir + AfterLastSlash(path)).Ok?
    ensures s.result.Ok? ==> s.result.value == tempDir + AfterLastSlash(path)
    ensures s.result.Err? && !g.signedIn && credentials.Err? ==> s.result.error == credentials.error
    ensures s.result.Err? && (g.signedIn || credentials.Ok?) ==>
      s.result.error == api.saveMedia(CacheAfterLogin(g)[AfterLastSlash(path)].id.value, tempDir + AfterLastSlash(path)).error
  {
    var a := EnsureSignedIn(g, credentials);
    if a.result.Err? then Step(a.next, Err(a.result.error))
    else
      var name := AfterLastSlash(path);
      var saved := tempDir + name;
      match api.saveMedia(a.next.cache[name].id.value, saved)
      case Err(e) => Step(a.next, Err(e))
      case Ok(_) => Step(a.next, Ok(saved))
  }

  /** Every hit of a successful search survives the unwraps of `search_for`. */
  predicate SearchPanicFree(reply: Result<Option<seq<File>>>) {
    reply.Ok? ==> forall i :: 0 <= i < |Listed(reply.value)| ==> SearchableFile(Listed(reply.value)[i])
  }

  /** `search_for`: lazily authenticate, query Drive for names containing
      the fragment and project the hits; the cache is neither read nor
      written beyond the lazy authentication. */
  function SearchFor(g: GDrive, credentials: Result<()>, fragment: string, api: DriveApi): (s: Step<seq<DirWalkerEntry>>)
    requires (g.signedIn || credentials.Ok?) ==> SearchPanicFree(api.nameContains(fragment))
    ensures s.next == (if g.signedIn || credentials.Err? then g else GDrive(true, RootCache()))
    ensures s.result.Ok? <==> (g.signedIn || credentials.Ok?) && api.nameContains(fragment).Ok?
    ensures s.result.Ok? ==>
      var hits := Listed(api.nameContains(fragment).value);
      && |s.result.value| == |hits|
      && forall i :: 0 <= i < |hits| ==> s.result.value[i] == ToSearchEntry(hits[i])
    ensures s.result.Err? && !g.signedIn && credentials.Err? ==> s.result.error == credentials.error
    ensures s.result.Err? && (g.signedIn || credentials.Ok?) ==> s.result.error == api.nameContains(fragment).error
  {
    var a := EnsureSignedIn(g, credentials);
    if a.result.Err? then Step(a.next, Err(a.result.error))
    else
      match api.nameContains(fragment)
      case Err(e) => Step(a.next, Err(e))
      case Ok(reply) => Step(a.next, Ok(ToSearchEntries(Listed(reply))))
  }
}
