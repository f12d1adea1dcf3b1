/** POSIX path arithmetic as `os.path.join` and `os.path.basename` do it: the
    output layout (new.py lines 31-52) is built from these two operations. */
module Paths {
  import opened Wrappers
  import opened Search

  /** `os.path.join(a, b)`: an absolute `b` replaces `a`; otherwise a `/` is
      inserted unless `a` is empty or already ends in one. */
  function Join(a: string, b: string): string {
    if |b| > 0 && b[0] == '/' then b
    else if |a| == 0 || a[|a| - 1] == '/' then a + b
    else a + "/" + b
  }

  /** `os.path.basename(p)`: what follows the last `/`. */
  function PathBasename(p: string): string {
    match LastIndexOf(p, '/')
    case None => p
    case Some(i) => p[i + 1..]
  }

  /** What `os.path.join` puts in front of a relative second argument: the
      directory itself, followed by a `/` unless it is empty or ends in one. */
  function DirPrefix(dir: string): string {
    if |dir| == 0 || dir[|dir| - 1] == '/' then dir else dir + "/"
  }

  /** A path strictly below `dir`: it continues past `dir`'s prefix. */
  predicate Under(p: string, dir: string) {
    |DirPrefix(dir)| < |p| && p[..|DirPrefix(dir)|] == DirPrefix(dir)
  }

  /** Joining a relative name appends it to the directory's prefix. */
  lemma JoinRelative(dir: string, n: string)
    requires |n| > 0 && n[0] != '/'
    ensures Join(dir, n) == DirPrefix(dir) + n
    ensures Under(Join(dir, n), dir)
  {
    assert (DirPrefix(dir) + n)[..|DirPrefix(dir)|] == DirPrefix(dir);
  }

  /** A name a directory listing can return: non-empty and slash-free. */
  predicate IsEntryName(n: string) {
    |n| > 0 && '/' !in n
  }

  /** Joining an entry name onto a directory yields a strictly longer path
      that starts with the directory and whose basename is the entry name
      again. */
  lemma JoinEntry(dir: string, n: string)
    requires IsEntryName(n)
    ensures |Join(dir, n)| > |dir|
    ensures Join(dir, n)[..|dir|] == dir
    ensures PathBasename(Join(dir, n)) == n
  {
    var p := Join(dir, n);
    var q := |p| - |n|;
    assert p[q..] == n;
    assert q == 0 || p[q - 1] == '/';
    assert forall k | q <= k < |p| :: p[k] != '/' by {
      forall k | q <= k < |p| ensures p[k] != '/' {
        assert p[k] == n[k - q];
      }
    }
    if q == 0 {
      assert '/' !in p;
    } else {
      LastIndexOfUnique(p, '/', q - 1);
    }
  }

  /** An entry joined onto a subdirectory lies below both the subdirectory
      and its parent. */
  lemma JoinedInSubdir(dir: string, sub: string, x: string)
    requires IsEntryName(sub) && IsEntryName(x)
    ensures Under(Join(Join(dir, sub), x), Join(dir, sub))
    ensures Under(Join(Join(dir, sub), x), dir)
  {
    var pre := DirPrefix(dir);
    JoinRelative(dir, sub);
    JoinRelative(Join(dir, sub), x);
    assert DirPrefix(Join(dir, sub)) == pre + sub + "/";
    var p := Join(Join(dir, sub), x);
    assert p == pre + (sub + "/" + x);
    assert p[..|pre|] == pre;
  }

  /** An entry joined onto a directory never lies below a subdirectory of
      it: its remainder would have to contain a `/`. */
  lemma SiblingNotInSubdir(dir: string, sub: string, x: string)
    requires IsEntryName(sub) && IsEntryName(x)
    ensures !Under(Join(dir, x), Join(dir, sub))
  {
    var pre := DirPrefix(dir);
    JoinRelative(dir, sub);
    JoinRelative(dir, x);
    var q := DirPrefix(Join(dir, sub));
    assert q == pre + sub + "/";
    if |x| > |sub| {
      assert Join(dir, x)[|pre| + |sub|] == x[|sub|] != '/';
    }
  }

  /** A joined entry is never the directory it was joined onto. */
  lemma JoinEntryDiffers(dir: string, n: string)
    requires IsEntryName(n)
    ensures Join(dir, n) != dir
  {
    JoinEntry(dir, n);
  }
}
