/** The path handling the Drive provider relies on: `Path::file_name`,
    `PathBuf::join`, `str::rfind('/')` with the suffix after it, and the
    replacement of every backslash by a forward slash. Paths are strings with
    Unix separator rules ('/' only).
 */
module Paths {
  import opened Wrappers

  /** A single path component that `Path::file_name` can return and that
      `PathBuf::join` appends without replacing the base. */
  predicate PlainName(n: string) {
    n != "" && n != "." && n != ".." && '/' !in n
  }

  /** Index of the last '/' in `p` (Rust's `p.rfind('/')`). */
  function LastSlash(p: string): (i: nat)
    requires '/' in p
    ensures i < |p| && p[i] == '/'
    ensures forall j :: i < j < |p| ==> p[j] != '/'
  {
    if p[|p| - 1] == '/' then |p| - 1
    else
      assert '/' in p[..|p| - 1] by {
        var k :| 0 <= k < |p| && p[k] == '/';
        assert p[..|p| - 1][k] == '/';
      }
      LastSlash(p[..|p| - 1])
  }

  /** The text after the last '/' of `p`: the name `download_file` looks up. */
  function AfterLastSlash(p: string): (n: string)
    requires '/' in p
    ensures '/' !in n
    ensures exists q :: p == q + "/" + n
  {
    var i := LastSlash(p);
    assert p == p[..i] + "/" + p[i + 1..];
    p[i + 1..]
  }

  /** Empty or absent text before a component, or text ending in '/'. */
  predicate EndsWithSeparator(q: string) {
    q == "" || q[|q| - 1] == '/'
  }

  /** A run of components `Path::file_name` skips at the end of a path:
      each is empty (a repeated or trailing '/') or "." ("/."). */
  predicate SkippedTail(t: string)
    decreases |t|
  {
    if t == "" then true
    else if t[|t| - 1] == '/' then SkippedTail(t[..|t| - 1])
    else |t| >= 2 && t[|t| - 2..] == "/." && SkippedTail(t[..|t| - 2])
  }

  /** `n` is the last component of `p` that `Path::file_name` does not skip:
      it starts the path or follows a '/', and only skipped components come
      after it. */
  ghost predicate EndsInComponent(p: string, n: string) {
    exists q, t :: EndsWithSeparator(q) && SkippedTail(t) && p == q + n + t
  }

  /** Appending one skipped component keeps the last component. */
  lemma EndsInComponentSkip(p: string, n: string, seg: string)
    requires seg == "" || seg == "."
    requires EndsInComponent(p, n)
    ensures EndsInComponent(p + "/" + seg, n)
  {
    var q, t :| EndsWithSeparator(q) && SkippedTail(t) && p == q + n + t;
    var t' := t + "/" + seg;
    if seg == "" {
      assert t' == t + "/";
      assert t'[|t'| - 1] == '/';
      assert t'[..|t'| - 1] == t;
    } else {
      assert t' == t + "/.";
      assert t'[..|t'| - 2] == t;
      assert t'[|t'| - 2..] == "/.";
    }
    assert SkippedTail(t');
    assert p + "/" + seg == q + n + t';
  }

  /** A component after a separator, with nothing after it, ends the path. */
  lemma EndsInComponentDirect(q: string, n: string)
    requires EndsWithSeparator(q)
    ensures EndsInComponent(q + n, n)
  {
    assert q + n == q + n + "";
    assert SkippedTail("");
  }

  /** `Path::file_name` on a Unix path: the last component when it is a normal
      name. Empty components (repeated or trailing '/') and "." components are
      skipped; a last component ".." or no component at all gives None. */
  function FileName(p: string): (r: Option<string>)
    ensures r.Some? ==> PlainName(r.value) && EndsInComponent(p, r.value)
    ensures '/' !in p ==> r == (if p == "" || p == "." || p == ".." then None else Some(p))
    decreases |p|
  {
    if '/' !in p then
      if p == "" || p == "." || p == ".." then None
      else
        EndsInComponentDirect("", p);
        assert "" + p == p;
        Some(p)
    else
      var i := LastSlash(p);
      var seg := p[i + 1..];
      assert p == p[..i] + "/" + seg;
      if seg == "" || seg == "." then
        var r := FileName(p[..i]);
        if r.Some? then
          EndsInComponentSkip(p[..i], r.value, seg);
          r
        else r
      else if seg == ".." then None
      else
        EndsInComponentDirect(p[..i + 1], seg);
        assert p == p[..i + 1] + seg;
        Some(seg)
  }

  /** The part of `PathBuf::join(base, n)` that precedes a relative `n`:
      `base` itself, followed by a separator unless it is empty or already
      ends with one. */
  function JoinPrefix(base: string): (q: string)
    ensures EndsWithSeparator(q)
    ensures |base| <= |q| && q[..|base|] == base
    ensures |q| == |base| + (if EndsWithSeparator(base) then 0 else 1)
  {
    if EndsWithSeparator(base) then base else base + "/"
  }

  /** `PathBuf::join` on Unix: an absolute `n` replaces `base`; a relative `n`
      follows `base`, separated by exactly one '/' unless `base` is empty or
      already ends with one. */
  function Join(base: string, n: string): (r: string)
    ensures |n| <= |r| && r[|r| - |n|..] == n
    ensures |n| > 0 && n[0] == '/' ==> r == n
    ensures (|n| == 0 || n[0] != '/') ==>
      && |base| <= |r| && r[..|base|] == base
      && |r| == |base| + |n| + (if EndsWithSeparator(base) then 0 else 1)
      && (base != "" ==> r[|r| - |n| - 1] == '/')
  {
    if |n| > 0 && n[0] == '/' then n else JoinPrefix(base) + n
  }

  /** Rust's `s.replace("\\", "/")`. */
  function ForwardSlashes(s: string): (r: string)
    ensures |r| == |s|
    ensures forall i :: 0 <= i < |s| ==> r[i] == (if s[i] == '\\' then '/' else s[i])
    ensures '\\' !in r
  {
    if s == [] then []
    else [if s[0] == '\\' then '/' else s[0]] + ForwardSlashes(s[1..])
  }

  /** The backslash replacement distributes over concatenation. */
  lemma ForwardSlashesAppend(a: string, b: string)
    ensures ForwardSlashes(a + b) == ForwardSlashes(a) + ForwardSlashes(b)
  {
    var l, r := ForwardSlashes(a + b), ForwardSlashes(a) + ForwardSlashes(b);
    assert |l| == |r|;
    forall i | 0 <= i < |l| ensures l[i] == r[i] {
      if i < |a| { assert (a + b)[i] == a[i]; } else { assert (a + b)[i] == b[i - |a|]; }
    }
  }

  /** The last '/' of `q + "/" + n` is the one just before `n` when `n` has no '/'. */
  lemma {:induction false} LastSlashBeforeName(q: string, n: string)
    requires '/' !in n
    ensures '/' in q + "/" + n
    ensures LastSlash(q + "/" + n) == |q|
  {
    var p := q + "/" + n;
    assert p[|q|] == '/';
  }

  /** The suffix `download_file` extracts is the name that was appended after the last separator. */
  lemma {:induction false} AfterLastSlashOfName(q: string, n: string)
    requires '/' !in n
    ensures '/' in q + "/" + n
    ensures AfterLastSlash(q + "/" + n) == n
  {
    LastSlashBeforeName(q, n);
    assert (q + "/" + n)[|q| + 1..] == n;
  }

  /** A plain name written after a separator (or alone) is what `Path::file_name` returns. */
  lemma {:induction false} FileNameAfterSeparator(q: string, n: string)
    requires EndsWithSeparator(q)
    requires PlainName(n)
    ensures FileName(q + n) == Some(n)
  {
    if q == "" {
      assert q + n == n;
    } else {
      var q' := q[..|q| - 1];
      assert q == q' + "/";
      assert q + n == q' + "/" + n;
      AfterLastSlashOfName(q', n);
      LastSlashBeforeName(q', n);
      assert (q' + "/" + n)[|q'| + 1..] == n;
    }
  }

  /** Trailing empty and "." components do not change `Path::file_name`. */
  lemma {:induction false} FileNameSkipsTail(p: string, t: string)
    requires SkippedTail(t)
    ensures FileName(p + t) == FileName(p)
    decreases |t|
  {
    if t == "" {
      assert p + t == p;
    } else {
      var pt := p + t;
      if t[|t| - 1] == '/' {
        var t' := t[..|t| - 1];
        assert pt == (p + t') + "/";
        LastSlashBeforeName(p + t', "");
        assert pt[..|p + t'|] == p + t';
        FileNameSkipsTail(p, t');
      } else {
        var t' := t[..|t| - 2];
        assert pt == (p + t') + "/" + ".";
        LastSlashBeforeName(p + t', ".");
        assert pt[..|p + t'|] == p + t';
        FileNameSkipsTail(p, t');
      }
    }
  }

  /** A last component ".." gives no file name. */
  lemma {:induction false} FileNameOfDotDot(q: string)
    requires EndsWithSeparator(q)
    ensures FileName(q + "..") == None
  {
    if q != "" {
      var q' := q[..|q| - 1];
      assert q + ".." == q' + "/" + "..";
      LastSlashBeforeName(q', "..");
      assert (q' + "/" + "..")[|q'| + 1..] == "..";
    } else {
      assert q + ".." == "..";
    }
  }

  /** A path whose last component that is not skipped is ".." has no file name. */
  lemma {:induction false} FileNameOfParentLink(q: string, t: string)
    requires EndsWithSeparator(q) && SkippedTail(t)
    ensures FileName(q + ".." + t) == None
  {
    FileNameSkipsTail(q + "..", t);
    FileNameOfDotDot(q);
  }

  /** The converse of `FileName`'s shape: a plain name followed only by
      skipped components is the file name. */
  lemma {:induction false} FileNameOfComponent(q: string, n: string, t: string)
    requires EndsWithSeparator(q) && PlainName(n) && SkippedTail(t)
    ensures FileName(q + n + t) == Some(n)
  {
    FileNameSkipsTail(q + n, t);
    FileNameAfterSeparator(q, n);
  }

  /** Joining a plain name onto any base and normalising separators yields a
      path whose `file_name` is that name again, provided the name holds no
      backslash (a backslash in a name would become a separator). */
  lemma {:induction false} FileNameOfJoin(base: string, n: string)
    requires PlainName(n) && '\\' !in n
    ensures FileName(ForwardSlashes(Join(base, n))) == Some(n)
  {
    var q := JoinPrefix(base);
    ForwardSlashesAppend(q, n);
    ForwardSlashesIdentity(n);
    ForwardSlashesKeepsLastSlash(q);
    FileNameAfterSeparator(ForwardSlashes(q), n);
  }

  /** Under the same condition, with a non-empty base, the text after the
      last '/' of the joined path is the name again. */
  lemma {:induction false} AfterLastSlashOfJoin(base: string, n: string)
    requires base != ""
    requires PlainName(n) && '\\' !in n
    ensures '/' in ForwardSlashes(Join(base, n))
    ensures AfterLastSlash(ForwardSlashes(Join(base, n))) == n
  {
    var q := JoinPrefix(base);
    ForwardSlashesAppend(q, n);
    ForwardSlashesIdentity(n);
    ForwardSlashesKeepsLastSlash(q);
    var fq := ForwardSlashes(q);
    var q' := fq[..|fq| - 1];
    assert fq == q' + "/";
    assert fq + n == q' + "/" + n;
    AfterLastSlashOfName(q', n);
  }

  /** Both ways back from a joined, normalised path to the name it ends in. */
  lemma JoinedNameFacts(base: string, n: string)
    ensures PlainName(n) && '\\' !in n ==> FileName(ForwardSlashes(Join(base, n))) == Some(n)
    ensures base != "" && PlainName(n) && '\\' !in n ==>
      '/' in ForwardSlashes(Join(base, n)) && AfterLastSlash(ForwardSlashes(Join(base, n))) == n
  {
    if PlainName(n) && '\\' !in n {
      FileNameOfJoin(base, n);
      if base != "" { AfterLastSlashOfJoin(base, n); }
    }
  }

  /** Joining a relative name keeps the normalised base as a prefix. */
  lemma JoinKeepsParent(base: string, n: string)
    ensures (n == "" || n[0] != '/') ==> ForwardSlashes(base) <= ForwardSlashes(Join(base, n))
  {
    if n == "" || n[0] != '/' {
      var j := Join(base, n);
      assert j == j[..|base|] + j[|base|..];
      ForwardSlashesAppend(base, j[|base|..]);
    }
  }

  /** Text without backslashes is left unchanged. */
  lemma ForwardSlashesIdentity(s: string)
    requires '\\' !in s
    ensures ForwardSlashes(s) == s
  {
  }

  /** Text ending in '/' still ends in '/' after the replacement. */
  lemma ForwardSlashesKeepsLastSlash(q: string)
    requires EndsWithSeparator(q)
    ensures var f := ForwardSlashes(q); f == "" || f[|f| - 1] == '/'
  {
  }
}
