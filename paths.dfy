/** `os.path.join` on POSIX (`posixpath.join`), the only path operation the scrapers use. */
module Paths {
  import opened Strings

  /** `os.path.join(a, b)`: an absolute `b` replaces `a`; otherwise one `/` separates them
      unless `a` is empty or already ends in `/`. */
  function PathJoin(a: string, b: string): (r: string)
    ensures |r| >= |b| && r[|r| - |b|..] == b
    ensures StartsWith(b, "/") ==> r == b
    ensures !StartsWith(b, "/") ==> StartsWith(r, a) && |r| <= |a| + 1 + |b|
  {
    if StartsWith(b, "/") then b
    else if a == "" || a[|a| - 1] == '/' then a + b
    else a + "/" + b
  }

  /** Joining a relative name to a directory that does not end in `/` puts exactly one `/`
      between them. */
  lemma PathJoinRelative(a: string, b: string)
    requires a != "" && a[|a| - 1] != '/'
    requires b == "" || b[0] != '/'
    ensures PathJoin(a, b) == a + "/" + b
  {
  }

  /** Joining a relative name to an empty directory or one that already ends in `/` adds no
      separator. */
  lemma PathJoinNoSeparator(a: string, b: string)
    requires a == "" || a[|a| - 1] == '/'
    requires b == "" || b[0] != '/'
    ensures PathJoin(a, b) == a + b
  {
  }
}
