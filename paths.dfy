// File name handling as Python's ntpath (os.path on Windows) and pathlib do it for
// the relative path pieces the scripts build: last-separator basenames, joining,
// and the two different readings of a file extension.
module Paths {
  import opened Common

  /** The separator os.path.join inserts on Windows. */
  const Sep: char := '\\'

  /** Windows paths accept both slashes as separators. */
  predicate IsSep(c: char)
  {
    c == '\\' || c == '/'
  }

  /** Index of the last occurrence of a character satisfying `p`, if any. */
  function LastIndexOf(s: string, c: char): (r: Option<nat>)
    ensures r.Some? ==> r.value < |s| && s[r.value] == c
                        && forall k | r.value < k < |s| :: s[k] != c
    ensures r.None? ==> forall k | 0 <= k < |s| :: s[k] != c
  {
    if s == [] then None
    else if s[|s| - 1] == c then Some(|s| - 1)
    else LastIndexOf(s[..|s| - 1], c)
  }

  function LastSep(s: string): (r: Option<nat>)
    ensures r.Some? ==> r.value < |s| && IsSep(s[r.value])
                        && forall k | r.value < k < |s| :: !IsSep(s[k])
    ensures r.None? ==> forall k | 0 <= k < |s| :: !IsSep(s[k])
  {
    if s == [] then None
    else if IsSep(s[|s| - 1]) then Some(|s| - 1)
    else LastSep(s[..|s| - 1])
  }

  /** os.path.basename / Path.name: the text after the last separator. */
  function Basename(p: string): (r: string)
    ensures EndsWith(p, r)
    ensures forall k | 0 <= k < |r| :: !IsSep(r[k])
    ensures |r| < |p| ==> IsSep(p[|p| - |r| - 1])
  {
    match LastSep(p)
    case None => p
    case Some(i) => p[i + 1..]
  }

  /**
   * os.path.join(a, b) for a relative `b`: `a`, then the separator unless `a` is empty or
   * already ends with one, then `b`.
   */
  function Join(a: string, b: string): (r: string)
    ensures StartsWith(r, a) && EndsWith(r, b)
    ensures |r| == |a| + |b| || |r| == |a| + |b| + 1
    ensures |r| == |a| + |b| + 1 <==> a != [] && !IsSep(a[|a| - 1])
    ensures |r| == |a| + |b| + 1 ==> r[|a|] == Sep
  {
    if a == [] then b
    else if IsSep(a[|a| - 1]) then a + b
    else a + [Sep] + b
  }

  function Join3(a: string, b: string, c: string): string
  {
    Join(Join(a, b), c)
  }

  /** Where pathlib splits a name into stem and suffix, if it does. */
  function SuffixDot(name: string): (r: Option<nat>)
    ensures r.Some? ==> 0 < r.value < |name| - 1 && name[r.value] == '.'
  {
    match LastIndexOf(name, '.')
    case Some(i) => if 0 < i < |name| - 1 then Some(i) else None
    case None => None
  }

  /** Path.suffix: from the last dot on, unless that dot leads or ends the name. */
  function PathSuffix(name: string): (r: string)
    ensures PathStem(name) + r == name
    ensures r == [] || (r[0] == '.' && forall k | 1 <= k < |r| :: r[k] != '.')
  {
    match SuffixDot(name)
    case Some(i) => name[i..]
    case None => []
  }

  /** Path.stem: the name without its suffix. */
  function PathStem(name: string): string
  {
    match SuffixDot(name)
    case Some(i) => name[..i]
    case None => name
  }

  /**
   * Index where os.path.splitext cuts the extension of `p`, if it does: the last dot of the
   * base name, unless only dots precede it in the base name.
   */
  function ExtDot(p: string): (r: Option<nat>)
    ensures r.Some? ==> |p| - |Basename(p)| <= r.value < |p| && p[r.value] == '.'
    ensures r.Some? ==> forall k | r.value < k < |p| :: p[k] != '.'
    ensures r.Some? ==> exists k | |p| - |Basename(p)| <= k < r.value :: p[k] != '.'
    ensures r.None? ==> forall d | |p| - |Basename(p)| <= d < |p| && p[d] == '.' ::
                          forall k | |p| - |Basename(p)| <= k < d :: p[k] == '.'
  {
    var start := match LastSep(p) case Some(s) => s + 1 case None => 0;
    match LastIndexOf(p, '.')
    case None => None
    case Some(d) =>
      if d < start then None
      // leading dots of a file name do not start an extension
      else if forall k | start <= k < d :: p[k] == '.' then None
      else Some(d)
  }

  /**
   * os.path.splitext(p)[0]: the path without its extension. The extension starts at the
   * last dot of the base name, and only when something other than a dot precedes that dot
   * in the base name; otherwise the path is kept whole.
   */
  function SplitExtRoot(p: string): (r: string)
    ensures StartsWith(p, r)
    ensures r == p || p[|r|] == '.'
    ensures r != p ==> |p| - |Basename(p)| <= |r| && forall k | |r| < k < |p| :: p[k] != '.'
    ensures r != p ==> exists k | |p| - |Basename(p)| <= k < |r| :: p[k] != '.'
    ensures r == p ==> forall d | |p| - |Basename(p)| <= d < |p| && p[d] == '.' ::
                         forall k | |p| - |Basename(p)| <= k < d :: p[k] == '.'
  {
    match ExtDot(p)
    case Some(d) => p[..d]
    case None => p
  }

  /**
   * A separator-free file name with a single extension `ext` (a dot, then no other dot),
   * whose stem holds no dot, loses exactly that extension.
   */
  lemma SplitExtDropsSingleExtension(stem: string, ext: string)
    requires stem != [] && forall k | 0 <= k < |stem| :: stem[k] != '.' && !IsSep(stem[k])
    requires ext != [] && ext[0] == '.' && forall k | 1 <= k < |ext| :: ext[k] != '.' && !IsSep(ext[k])
    ensures SplitExtRoot(stem + ext) == stem
  {
    var p := stem + ext;
    assert forall k | 0 <= k < |p| :: !IsSep(p[k]);
    assert Basename(p) == p;
    assert p[|stem|] == '.' && p[0] != '.';
    var r := SplitExtRoot(p);
    assert r != p;
    assert r == p[..|stem|] == stem;
  }
}
