/** POSIX `os.path.splitext`, which several scripts use to take the
    extension off a file name. */
module PosixPath {
  /** The last position of `c` in `s`, or -1. */
  function LastIndex(s: string, c: char): (k: int)
    ensures -1 <= k < |s|
    ensures k >= 0 ==> s[k] == c
    ensures forall j :: k < j < |s| ==> s[j] != c
    decreases |s|
  {
    if |s| == 0 then -1
    else if s[|s| - 1] == c then |s| - 1
    else LastIndex(s[..|s| - 1], c)
  }

  predicate AllDots(s: string)
  {
    forall i :: 0 <= i < |s| ==> s[i] == '.'
  }

  /** POSIX `os.path.splitext(p)`: the extension starts at the last `.` of
      the last path component, unless everything before it in that
      component is dots. */
  function SplitExt(p: string): (string, string)
  {
    var sep := LastIndex(p, '/');
    var dot := LastIndex(p, '.');
    if dot > sep && !AllDots(p[sep + 1..dot]) then (p[..dot], p[dot..]) else (p, "")
  }

  /** Empty, or one `.` followed by neither `.` nor `/`. */
  predicate ExtShaped(ext: string)
  {
    ext == "" || (ext[0] == '.' && '.' !in ext[1..] && '/' !in ext)
  }

  /** The root and the extension put back together give the path; a
      non-empty extension is one `.` followed by neither `.` nor `/`. */
  lemma SplitExtMeaning(p: string)
    ensures SplitExt(p).0 + SplitExt(p).1 == p
    ensures ExtShaped(SplitExt(p).1)
  {
    var sep := LastIndex(p, '/');
    var dot := LastIndex(p, '.');
    if dot > sep && !AllDots(p[sep + 1..dot]) {
      assert p[..dot] + p[dot..] == p;
      SuffixAvoids(p, dot, '/');
      assert p[dot..][1..] == p[dot + 1..];
      SuffixAvoids(p, dot + 1, '.');
    }
  }

  lemma SuffixAvoids(p: string, from: nat, c: char)
    requires from <= |p|
    requires forall j :: from <= j < |p| ==> p[j] != c
    ensures c !in p[from..]
  {
  }

  /** A plain name with a plain extension splits back into the two. */
  lemma SplitExtOfStubExt(stub: string, e: string)
    requires |stub| > 0 && '.' !in stub && '/' !in stub
    requires '.' !in e && '/' !in e
    ensures SplitExt(stub + "." + e) == (stub, "." + e)
  {
    var p := stub + "." + e;
    assert p[|stub|] == '.';
    assert forall j :: |stub| < j < |p| ==> p[j] == e[j - |stub| - 1];
    assert forall j :: 0 <= j < |stub| ==> p[j] == stub[j];
    var dot := LastIndex(p, '.');
    assert dot == |stub|;
    assert LastIndex(p, '/') == -1;
    assert p[0..dot][0] == stub[0];
    assert p[..dot] == stub;
    assert p[dot..] == "." + e;
  }
}
