/**
 * The few PHP string functions the asset pipeline applies to paths:
 * `str_replace($needle, '', $s)`, `strpos($s, '/') === 0`, `dirname`, and
 * the prefix/suffix tests Finder uses to filter names.
 */
module PathStrings {
  import opened Wrappers

  predicate StartsWith(s: string, p: string)
  {
    |p| <= |s| && s[..|p|] == p
  }

  predicate EndsWith(s: string, p: string)
  {
    |p| <= |s| && s[|s| - |p|..] == p
  }

  /** `needle` occurs somewhere in `s`. */
  predicate Contains(s: string, needle: string)
    decreases |s|
  {
    StartsWith(s, needle) || (s != [] && Contains(s[1..], needle))
  }

  /**
   * `str_replace($needle, '', $s)`: delete every occurrence of `needle`,
   * scanning left to right without overlaps. An empty needle leaves `s` alone.
   */
  function RemoveAll(needle: string, s: string): (r: string)
    ensures |r| <= |s|
    decreases |s|
  {
    if needle == [] || s == [] then s
    else if StartsWith(s, needle) then RemoveAll(needle, s[|needle|..])
    else [s[0]] + RemoveAll(needle, s[1..])
  }

  /** A string that never contains the needle comes back unchanged. */
  lemma {:induction false} RemoveAllAbsent(needle: string, s: string)
    requires !Contains(s, needle)
    ensures RemoveAll(needle, s) == s
    decreases |s|
  {
    if needle != [] && s != [] {
      RemoveAllAbsent(needle, s[1..]);
      assert [s[0]] + s[1..] == s;
    }
  }

  /** A leading copy of the needle is removed; the remainder is scanned on. */
  lemma RemoveAllLeading(needle: string, t: string)
    requires needle != []
    ensures RemoveAll(needle, needle + t) == RemoveAll(needle, t)
  {
    assert StartsWith(needle + t, needle);
    assert (needle + t)[|needle|..] == t;
  }

  /** Lines 226-228: drop one leading `/` if there is one. */
  function StripLeadingSlash(s: string): (r: string)
    ensures StartsWith(s, "/") ==> "/" + r == s
    ensures !StartsWith(s, "/") ==> r == s
  {
    if |s| > 0 && s[0] == '/' then s[1..] else s
  }

  function TrimTrailingSlashes(s: string): (r: string)
    ensures |r| <= |s| && r == s[..|r|]
    ensures r == [] || r[|r| - 1] != '/'
    ensures forall i :: |r| <= i < |s| ==> s[i] == '/'
  {
    if |s| > 0 && s[|s| - 1] == '/' then TrimTrailingSlashes(s[..|s| - 1]) else s
  }

  /** The index of the last `/` in `p`, if any. */
  function LastSlash(p: string): (r: Option<nat>)
    ensures r.Some? ==> r.value < |p| && p[r.value] == '/'
    ensures r.Some? ==> forall i :: r.value < i < |p| ==> p[i] != '/'
    ensures r.None? ==> forall i :: 0 <= i < |p| ==> p[i] != '/'
  {
    if p == [] then None
    else if p[|p| - 1] == '/' then Some(|p| - 1)
    else LastSlash(p[..|p| - 1])
  }

  /**
   * PHP's `dirname` on a Unix path: trailing slashes are ignored, the last
   * component is dropped with the slashes before it; a path without a slash
   * gives ".", one whose parent is the root gives "/", and "" gives "".
   */
  function Dirname(path: string): (r: string)
  {
    if path == [] then []
    else
      var p := TrimTrailingSlashes(path);
      if p == [] then "/"
      else match LastSlash(p)
        case None => "."
        case Some(i) =>
          var d := TrimTrailingSlashes(p[..i]);
          if d == [] then "/" else d
  }

  /** The directory part of `dir/file` is `dir` itself. */
  lemma DirnameOfJoin(dir: string, file: string)
    requires dir != [] && dir[|dir| - 1] != '/'
    requires file != [] && forall i :: 0 <= i < |file| ==> file[i] != '/'
    ensures Dirname(dir + "/" + file) == dir
  {
    var path := dir + "/" + file;
    assert TrimTrailingSlashes(path) == path;
    var i := |dir|;
    assert path[i] == '/';
    assert forall j :: i < j < |path| ==> path[j] == file[j - i - 1];
    assert LastSlash(path) == Some(i);
    assert path[..i] == dir;
  }

  /** A bare file name lives in ".". */
  lemma DirnameOfBareName(file: string)
    requires file != [] && forall i :: 0 <= i < |file| ==> file[i] != '/'
    ensures Dirname(file) == "."
  {
    assert TrimTrailingSlashes(file) == file;
  }
}
