/** Path strings as the filename index and the trie see them: the final
    component that Rust's `Path::file_name` returns for a '/'-separated path,
    and the backslash rewrite applied to every discovered path before it is
    indexed. */
module Paths {
  import opened Common

  /** The characters after the last '/' of `p` (all of `p` when it has none). */
  function LastSegment(p: string): (r: string)
    ensures '/' !in r
    ensures |r| <= |p| && r == p[|p| - |r|..]
    ensures |r| < |p| ==> p[|p| - |r| - 1] == '/'
  {
    if |p| == 0 || p[|p| - 1] == '/' then [] else LastSegment(p[..|p| - 1]) + [p[|p| - 1]]
  }

  /** A component that `file_name` can return: non-empty, no separator,
      neither "." nor "..". */
  predicate IsName(n: string)
  {
    n != [] && '/' !in n && n != "." && n != ".."
  }

  /** `Path::new(p).file_name()`: trailing separators and "." components
      that do not start the path are ignored; the path has no file name
      when it is empty, only a root, a leading ".", or ends in "..". */
  function FileName(p: string): (r: Option<string>)
    ensures r.Some? ==> IsName(r.value)
    decreases |p|
  {
    if |p| == 0 then None
    else if p[|p| - 1] == '/' then FileName(p[..|p| - 1])
    else
      var seg := LastSegment(p);
      var rest := p[..|p| - |seg|];
      if seg == "." then (if rest == [] then None else FileName(rest))
      else if seg == ".." then None
      else Some(seg)
  }

  lemma {:induction false} LastSegmentOfJoin(dir: string, n: string)
    requires '/' !in n
    ensures LastSegment(dir + "/" + n) == n
    decreases |n|
  {
    var p := dir + "/" + n;
    if n != [] {
      assert p[..|p| - 1] == dir + "/" + n[..|n| - 1];
      LastSegmentOfJoin(dir, n[..|n| - 1]);
      assert n == n[..|n| - 1] + [n[|n| - 1]];
    }
  }

  /** A name joined under any directory has that name as its file name, so
      two paths in different directories that end in the same name share it. */
  lemma JoinedFileName(dir: string, n: string)
    requires IsName(n)
    ensures FileName(dir + "/" + n) == Some(n)
  {
    LastSegmentOfJoin(dir, n);
  }

  lemma SameFileNameInAnyDirectory(dir1: string, dir2: string, n: string)
    requires IsName(n)
    ensures FileName(dir1 + "/" + n) == FileName(dir2 + "/" + n) == Some(n)
  {
    JoinedFileName(dir1, n);
    JoinedFileName(dir2, n);
  }

  /** `path.replace("\\", "/")`: every backslash becomes a slash. */
  function ReplaceBackslashes(s: string): (r: string)
  {
    seq(|s|, i requires 0 <= i < |s| => if s[i] == '\\' then '/' else s[i])
  }

  lemma ReplaceBackslashesSpec(s: string)
    ensures |ReplaceBackslashes(s)| == |s|
    ensures '\\' !in ReplaceBackslashes(s)
    ensures forall i :: 0 <= i < |s| && s[i] != '\\' ==> ReplaceBackslashes(s)[i] == s[i]
    ensures ReplaceBackslashes(ReplaceBackslashes(s)) == ReplaceBackslashes(s)
  {
    var r := ReplaceBackslashes(s);
    assert forall i :: 0 <= i < |r| ==> r[i] != '\\';
  }
}
