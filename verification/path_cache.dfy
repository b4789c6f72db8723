/** The provider's cache: a map from a key to the last descriptor seen under
    it. In this revision `read_dir` keys each child by its bare name, so two
    same-named objects in different folders share one entry.
 */
module PathCache {
  import opened Wrappers
  import opened DriveFiles

  type Cache = map<string, File>

  /** The cache right after construction or authentication: the root alone. */
  function RootCache(): (c: Cache)
    ensures c.Keys == {RootKey}
    ensures IsRootFile(c[RootKey])
  {
    map[RootKey := RootFile()]
  }

  /** The cache holds the synthetic root and nothing else. */
  predicate IsRootOnly(c: Cache) {
    c.Keys == {RootKey} && IsRootFile(c[RootKey])
  }

  /** Every file of the sequence carries a name (the listing unwraps it). */
  predicate AllNamed(files: seq<File>) {
    forall i :: 0 <= i < |files| ==> files[i].name.Some?
  }

  /** Some file of the sequence is named `k`. */
  predicate NameListed(files: seq<File>, k: string) {
    exists i :: 0 <= i < |files| && files[i].name == Some(k)
  }

  /** `files[i]` is the last file of the sequence carrying its name. */
  predicate LastOfName(files: seq<File>, i: int) {
    0 <= i < |files| && forall j :: i < j < |files| ==> files[j].name != files[i].name
  }

  /** The last file of the listing named `k`, found by scanning from the end. */
  function LastNamed(files: seq<File>, k: string): Option<File>
    decreases |files|
  {
    if files == [] then None
    else if files[|files| - 1].name == Some(k) then Some(files[|files| - 1])
    else LastNamed(files[..|files| - 1], k)
  }

  /** The last file named `k` of `[f] + rest`, given `later`, the last one of `rest`. */
  function OrFront(later: Option<File>, f: File, k: string): Option<File> {
    if later.Some? then later else if f.name == Some(k) then Some(f) else None
  }

  /** Scanning from the end agrees with taking the front file first and
      letting any later same-named file override it. */
  lemma {:induction false} LastNamedFront(f: File, rest: seq<File>, k: string)
    ensures LastNamed([f] + rest, k) == OrFront(LastNamed(rest, k), f, k)
    decreases |rest|
  {
    var files := [f] + rest;
    if rest != [] {
      var n := |rest| - 1;
      assert files[|files| - 1] == rest[n];
      assert files[..|files| - 1] == [f] + rest[..n];
      LastNamedFront(f, rest[..n], k);
    } else {
      assert files[..|files| - 1] == [];
    }
  }

  /** LastNamed finds exactly the last file carrying a name: it is defined
      for the listed names only, and at the last position of each. */
  lemma {:induction false} LastNamedIsLastOfName(files: seq<File>, k: string)
    ensures LastNamed(files, k).Some? <==> NameListed(files, k)
    ensures forall i :: LastOfName(files, i) && files[i].name == Some(k) ==> LastNamed(files, k) == Some(files[i])
    decreases |files|
  {
    if files != [] {
      var n := |files| - 1;
      var init := files[..n];
      LastNamedIsLastOfName(init, k);
      if files[n].name != Some(k) {
        forall i | LastOfName(files, i) && files[i].name == Some(k) ensures LastOfName(init, i) {
          forall j | i < j < |init| ensures init[j].name != init[i].name {
            assert init[j] == files[j];
          }
        }
        if NameListed(files, k) {
          var i :| 0 <= i < |files| && files[i].name == Some(k);
          assert init[i] == files[i];
        }
        if NameListed(init, k) {
          var i :| 0 <= i < |init| && init[i].name == Some(k);
          assert files[i] == init[i];
        }
      }
    }
  }

  /** The loop of `read_dir`: insert `name ↦ file` for each file, in order.
      Afterwards the keys are the old keys plus the listed names, each
      listed name maps to the last file carrying it, and every other key
      keeps its value. */
  function InsertChildren(cache: Cache, files: seq<File>): (r: Cache)
    requires AllNamed(files)
    ensures forall k :: k in r <==> k in cache || LastNamed(files, k).Some?
    ensures forall k :: LastNamed(files, k).Some? ==> r[k] == LastNamed(files, k).value
    ensures forall k :: k in cache && LastNamed(files, k).None? ==> r[k] == cache[k]
    decreases |files|
  {
    if files == [] then cache
    else
      var f := files[0];
      var rest := files[1..];
      assert files == [f] + rest;
      assert forall k :: LastNamed(files, k) == OrFront(LastNamed(rest, k), f, k) by {
        forall k { LastNamedFront(f, rest, k); }
      }
      InsertChildren(cache[f.name.value := f], rest)
  }

  /** The same specification by positions: a listed name maps to the file
      at its last position in the listing. */
  lemma InsertChildrenByPosition(cache: Cache, files: seq<File>)
    requires AllNamed(files)
    ensures forall k :: k in InsertChildren(cache, files) <==> k in cache || NameListed(files, k)
    ensures forall i :: LastOfName(files, i) ==>
      files[i].name.value in InsertChildren(cache, files) && InsertChildren(cache, files)[files[i].name.value] == files[i]
    ensures forall k :: k in cache && !NameListed(files, k) ==> InsertChildren(cache, files)[k] == cache[k]
  {
    forall k ensures LastNamed(files, k).Some? <==> NameListed(files, k) {
      LastNamedIsLastOfName(files, k);
    }
    forall i | LastOfName(files, i) ensures LastNamed(files, files[i].name.value) == Some(files[i]) {
      LastNamedIsLastOfName(files, files[i].name.value);
    }
  }

  /** Inserting the same listing twice changes nothing the first insertion did not. */
  lemma {:induction false} InsertChildrenIdempotent(cache: Cache, files: seq<File>)
    requires AllNamed(files)
    ensures InsertChildren(InsertChildren(cache, files), files) == InsertChildren(cache, files)
  {
    var once := InsertChildren(cache, files);
    var twice := InsertChildren(once, files);
    assert forall k :: k in twice <==> k in once;
    assert forall k :: k in twice ==> twice[k] == once[k];
  }
}
