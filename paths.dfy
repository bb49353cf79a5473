// get_relative_path of src/myFuse.c: turn the absolute path FUSE passes in
// into one relative to the mirrored base directory.
module Paths {
  import opened Config

  function Min(a: int, b: int): int {
    if a <= b then a else b
  }

  /** The path with one leading '/' removed, or "." for the root and for the
      empty path, as strncpy leaves it in the PathMax-byte buffer. Paths are
      C strings here: no NUL characters inside. */
  function RelativePath(path: string): (r: string)
    ensures |r| <= PathMax
    ensures path == "/" || path == "" ==> r == "."
    // the buffer always names something: it is never left empty
    ensures r != []
    // otherwise the path after one leading '/', cut to the buffer
    ensures path != "/" && path != "" && path[0] == '/' ==>
              r <= path[1..] && |r| == Min(|path| - 1, PathMax)
    ensures path != "/" && path != "" && path[0] != '/' ==>
              r <= path && |r| == Min(|path|, PathMax)
  {
    if path == "/" || path == "" then "."
    else
      var rest := if path[0] == '/' then path[1..] else path;
      if |rest| <= PathMax then rest else rest[..PathMax]
  }

  /** Prefixing a slash and relativising gives the path back. */
  lemma RelativeOfAbsolute(p: string)
    requires p != [] && |p| <= PathMax
    ensures RelativePath("/" + p) == p
  {
    assert ("/" + p)[1..] == p;
  }

  /** A path that names something and does not start with '/' is already relative. */
  lemma RelativeOfRelative(p: string)
    requires p != [] && p[0] != '/' && |p| <= PathMax
    ensures RelativePath(p) == p
  {
  }

  /** Only one leading slash is removed. */
  lemma OneSlashOnly()
    ensures RelativePath("//etc") == "/etc"
  {
    assert "//etc"[1..] == "/etc";
  }

  /** A path longer than the buffer is cut at PathMax characters (strncpy then
      writes no terminator). */
  lemma LongPathTruncated(p: string)
    requires |p| > PathMax && p[0] != '/'
    ensures RelativePath(p) == p[..PathMax]
  {
  }

  /** The same for the absolute paths FUSE passes: the slash goes, then the cut. */
  lemma LongAbsolutePathTruncated(p: string)
    requires |p| > PathMax
    ensures RelativePath("/" + p) == p[..PathMax]
  {
    assert ("/" + p)[1..] == p;
  }
}
