/** The records the Drive provider handles: the remote object descriptor
    (`drive_v3::objects::File`, reduced to the six fields the provider asks
    for), the listing record `FDir`, the search record `DirWalkerEntry`, and
    the projections from the first to the other two.
 */
module DriveFiles {
  import opened Wrappers
  import opened Paths

  /** A remote object as returned by the Drive API; every field is optional. */
  datatype File = File(
    name: Option<string>,
    id: Option<string>,
    mimeType: Option<string>,
    size: Option<string>,
    fullFileExtension: Option<string>,
    modifiedTime: Option<string>)

  /** The MIME type by which Drive marks a folder. */
  const FolderMime: string := "application/vnd.google-apps.folder"

  /** The cache key of the provider's namespace root, also the root's name. */
  const RootKey: string := "gdrive:"

  /** The id Drive accepts as an alias of the user's root folder. */
  const RootId: string := "root"

  /** `construct_root_file`: a fresh descriptor with only name and id set. */
  function RootFile(): File {
    File(Some(RootKey), Some(RootId), None, None, None, None)
  }

  /** A descriptor is the synthetic root: named RootKey, id RootId, nothing else set. */
  predicate IsRootFile(f: File) {
    f.name == Some(RootKey) && f.id == Some(RootId)
    && f.mimeType.None? && f.size.None? && f.fullFileExtension.None? && f.modifiedTime.None?
  }

  /** The directory-listing record handed to the front end. */
  datatype FDir = FDir(
    name: string,
    path: string,
    isDir: int,
    size: string,
    extension: string,
    lastModified: string)

  /** The search-result record handed to the front end. */
  datatype DirWalkerEntry = DirWalkerEntry(
    name: string,
    path: string,
    depth: nat,
    isDir: bool,
    isFile: bool,
    size: nat,
    extension: string,
    lastModified: string)

  /** A listed child that `read_dir` can project without panicking: its
      name, MIME type and modification time are present, and the time
      parses as a timestamp (`fmt` returns None exactly when it does not). */
  predicate ListableChild(f: File, fmt: string -> Option<string>) {
    f.name.Some? && f.mimeType.Some? && f.modifiedTime.Some? && fmt(f.modifiedTime.value).Some?
  }

  /** The projection of one listed child of the directory at `parent`. */
  function ToFDir(parent: string, f: File, fmt: string -> Option<string>): (e: FDir)
    requires ListableChild(f, fmt)
    ensures e.name == f.name.value
    ensures e.isDir == 0 || e.isDir == 1
    ensures e.isDir == 1 <==> f.mimeType == Some(FolderMime)
    ensures f.size.None? ==> e.size == "0"
    ensures f.size.Some? ==> e.size == f.size.value
    ensures f.fullFileExtension.None? ==> e.extension == ""
    ensures f.fullFileExtension.Some? ==> e.extension == f.fullFileExtension.value
    ensures Some(e.lastModified) == fmt(f.modifiedTime.value)
    ensures e.path == ForwardSlashes(Join(parent, f.name.value))
    ensures (e.name == "" || e.name[0] != '/') ==> ForwardSlashes(parent) <= e.path
    ensures '\\' !in e.path
  {
    var n := f.name.value;
    JoinKeepsParent(parent, n);
    FDir(
      n,
      ForwardSlashes(Join(parent, n)),
      if f.mimeType.value == FolderMime then 1 else 0,
      f.size.UnwrapOr("0"),
      f.fullFileExtension.UnwrapOr(""),
      fmt(f.modifiedTime.value).value)
  }

  /** The path of a listing record gives the child's name back: as its file
      name, and, under a non-empty parent, as the text after its last '/'.
      Both need a plain name without backslashes. */
  lemma ToFDirPath(parent: string, f: File, fmt: string -> Option<string>)
    requires ListableChild(f, fmt)
    ensures var e := ToFDir(parent, f, fmt);
      && (PlainName(e.name) && '\\' !in e.name ==> FileName(e.path) == Some(e.name))
      && (parent != "" && PlainName(e.name) && '\\' !in e.name ==> '/' in e.path && AfterLastSlash(e.path) == e.name)
  {
    JoinedNameFacts(parent, f.name.value);
  }

  /** The listing records for `files`, one per child, in order. */
  function ToFDirs(parent: string, files: seq<File>, fmt: string -> Option<string>): (es: seq<FDir>)
    requires forall i :: 0 <= i < |files| ==> ListableChild(files[i], fmt)
    ensures |es| == |files|
    ensures forall i :: 0 <= i < |files| ==> es[i] == ToFDir(parent, files[i], fmt)
  {
    if files == [] then []
    else [ToFDir(parent, files[0], fmt)] + ToFDirs(parent, files[1..], fmt)
  }

  /** The value of a decimal digit character. */
  function DigitValue(c: char): nat
    requires '0' <= c <= '9'
  {
    (c as int) - ('0' as int)
  }

  /** Every character of `s` is a decimal digit. */
  predicate AllDigits(s: string) {
    forall i :: 0 <= i < |s| ==> '0' <= s[i] <= '9'
  }

  /** The strings an unsigned integer `parse` accepts: an optional '+' and at
      least one decimal digit. */
  predicate IsUnsignedDecimal(s: string) {
    if |s| > 0 && s[0] == '+' then |s| > 1 && AllDigits(s[1..]) else |s| > 0 && AllDigits(s)
  }

  /** Ten to the power `k`. */
  function Pow10(k: nat): (r: nat)
    ensures r >= 1
  {
    if k == 0 then 1 else 10 * Pow10(k - 1)
  }

  /** The value of a digit string, most significant digit first. */
  function DigitsValue(s: string): (v: nat)
    requires AllDigits(s)
    ensures v < Pow10(|s|)
  {
    if s == [] then 0
    else DigitsValue(s[..|s| - 1]) * 10 + DigitValue(s[|s| - 1])
  }

  /** An unsigned integer `parse` of a decimal string. */
  function ParseUnsigned(s: string): (v: nat)
    requires IsUnsignedDecimal(s)
    ensures s[0] == '+' ==> v < Pow10(|s| - 1)
    ensures s[0] != '+' ==> v < Pow10(|s|)
    ensures |s| == 1 && s[0] != '+' ==> v == DigitValue(s[0])
  {
    if s[0] == '+' then DigitsValue(s[1..]) else DigitsValue(s)
  }

  /** A leading '+' does not change the parsed value. */
  lemma ParseUnsignedSign(s: string)
    requires |s| > 0 && AllDigits(s)
    ensures IsUnsignedDecimal(s) && IsUnsignedDecimal("+" + s)
    ensures ParseUnsigned("+" + s) == ParseUnsigned(s)
  {
    assert ("+" + s)[1..] == s;
  }

  /** The value of a decimal string grows by one digit per appended character. */
  lemma ParseUnsignedAppend(s: string, c: char)
    requires |s| > 0 && AllDigits(s) && '0' <= c <= '9'
    ensures IsUnsignedDecimal(s) && IsUnsignedDecimal(s + [c])
    ensures ParseUnsigned(s + [c]) == 10 * ParseUnsigned(s) + DigitValue(c)
  {
    assert (s + [c])[..|s|] == s;
  }

  /** The size text of a result, "0" when absent. */
  function SizeText(f: File): string {
    f.size.UnwrapOr("0")
  }

  /** A search hit that `search_for` can project without panicking: name,
      MIME type and modification time present and the size text numeric. */
  predicate SearchableFile(f: File) {
    f.name.Some? && f.mimeType.Some? && f.modifiedTime.Some? && IsUnsignedDecimal(SizeText(f))
  }

  /** The projection of one search hit: the path is the bare name, with no directory. */
  function ToSearchEntry(f: File): (e: DirWalkerEntry)
    requires SearchableFile(f)
    ensures e.name == f.name.value && e.path == e.name
    ensures e.depth == 0
    ensures e.isFile <==> f.mimeType.value != FolderMime
    ensures e.isDir <==> !e.isFile
    ensures f.size.None? ==> e.size == 0
    ensures f.size.Some? ==> e.size == ParseUnsigned(f.size.value)
    ensures f.fullFileExtension.None? ==> e.extension == ""
    ensures f.fullFileExtension.Some? ==> e.extension == f.fullFileExtension.value
    ensures e.lastModified == f.modifiedTime.value
  {
    var isFile := f.mimeType.value != FolderMime;
    DirWalkerEntry(
      f.name.value,
      f.name.value,
      0,
      !isFile,
      isFile,
      ParseUnsigned(SizeText(f)),
      f.fullFileExtension.UnwrapOr(""),
      f.modifiedTime.value)
  }

  /** The search records for `files`, one per hit, in order. */
  function ToSearchEntries(files: seq<File>): (es: seq<DirWalkerEntry>)
    requires forall i :: 0 <= i < |files| ==> SearchableFile(files[i])
    ensures |es| == |files|
    ensures forall i :: 0 <= i < |files| ==> es[i] == ToSearchEntry(files[i])
  {
    if files == [] then []
    else [ToSearchEntry(files[0])] + ToSearchEntries(files[1..])
  }
}
