/** Stripping the leading path components that several paths share, and
    the classification of a pair of files by their digests (compare.py).
    A path is modelled by its `parts`: the sequence of its components. */
module Compare {
  import opened Py

  type Parts = seq<string>

  /** The number of tuples `zip(*parts)` yields: the length of the
      shortest path, and none at all without paths. */
  function ZipWidth(paths: seq<Parts>): (w: nat)
    ensures |paths| == 0 ==> w == 0
    ensures forall k :: 0 <= k < |paths| ==> w <= |paths[k]|
    ensures |paths| > 0 ==> exists k :: 0 <= k < |paths| && w == |paths[k]|
    decreases |paths|
  {
    if |paths| == 0 then 0
    else if |paths| == 1 then |paths[0]|
    else
      var rest := ZipWidth(paths[1..]);
      assert forall k :: 1 <= k < |paths| ==> paths[k] == paths[1..][k - 1];
      if |paths[0]| <= rest then |paths[0]| else rest
  }

  /** The `j`-th tuple of the zip holds one value: `len(set(component))`
      is not greater than one. */
  predicate Agree(paths: seq<Parts>, j: nat)
    requires j < ZipWidth(paths)
  {
    forall k :: 0 <= k < |paths| ==> paths[k][j] == paths[0][j]
  }

  /** The position the `for`/`break` scan ends at when it starts at `j`:
      the first disagreeing position, or the last position when every one
      agrees. */
  function ScanFrom(paths: seq<Parts>, j: nat): (i: nat)
    requires j < ZipWidth(paths)
    decreases ZipWidth(paths) - j
  {
    if !Agree(paths, j) || j == ZipWidth(paths) - 1 then j else ScanFrom(paths, j + 1)
  }

  /** Each path with its first `i` parts dropped, in order. */
  function Tails(paths: seq<Parts>, i: nat): (r: seq<Parts>)
    requires i <= ZipWidth(paths)
    ensures |r| == |paths|
    ensures forall k :: 0 <= k < |paths| ==> r[k] == paths[k][i..]
  {
    seq(|paths|, k requires 0 <= k < |paths| => paths[k][i..])
  }

  /** `strip_common(paths)` as a value: the stripped paths and `i`, or the
      error of reading `i` when the loop never ran. */
  function StripCommonSpec(paths: seq<Parts>): Result<(seq<Parts>, nat)>
  {
    if ZipWidth(paths) == 0 then Err(UnboundLocalError)
    else
      var i := ScanFrom(paths, 0);
      ScanFromMeaning(paths, 0);
      Ok((Tails(paths, i), i))
  }

  /** The scan from `j` stops at a position `i` at or after `j` such that
      every position from `j` up to `i` agrees, and `i` disagrees or is the
      last position. */
  lemma {:induction false} ScanFromMeaning(paths: seq<Parts>, j: nat)
    requires j < ZipWidth(paths)
    ensures j <= ScanFrom(paths, j) < ZipWidth(paths)
    ensures forall m :: j <= m < ScanFrom(paths, j) ==> Agree(paths, m)
    ensures !Agree(paths, ScanFrom(paths, j)) || ScanFrom(paths, j) == ZipWidth(paths) - 1
    decreases ZipWidth(paths) - j
  {
    if Agree(paths, j) && j != ZipWidth(paths) - 1 {
      ScanFromMeaning(paths, j + 1);
    }
  }

  /** The index `strip_common` returns is the first position where the
      paths disagree; when all zipped positions agree it is the last one
      compared, not one past it. Without paths, or with a path that has no
      parts, the index is never bound. */
  lemma StripCommonIndex(paths: seq<Parts>)
    ensures StripCommonSpec(paths).Err? <==> ZipWidth(paths) == 0
    ensures StripCommonSpec(paths).Err? ==> StripCommonSpec(paths).exc == UnboundLocalError
    ensures StripCommonSpec(paths).Ok? ==>
      var i := StripCommonSpec(paths).value.1;
      i < ZipWidth(paths) &&
      (forall m :: 0 <= m < i ==> Agree(paths, m)) &&
      (!Agree(paths, i) || i == ZipWidth(paths) - 1)
  {
    if ZipWidth(paths) > 0 {
      ScanFromMeaning(paths, 0);
    }
  }

  /** When every zipped position agrees, the last shared component is
      kept: `i` is the width minus one. */
  lemma StripCommonAllAgree(paths: seq<Parts>)
    requires ZipWidth(paths) > 0
    requires forall m :: 0 <= m < ZipWidth(paths) ==> Agree(paths, m)
    ensures StripCommonSpec(paths).Ok? && StripCommonSpec(paths).value.1 == ZipWidth(paths) - 1
  {
    ScanFromMeaning(paths, 0);
  }

  /** The shared prefix in front of each stripped path gives back the
      path: only common leading components are dropped. */
  lemma StripCommonRebuild(paths: seq<Parts>)
    requires StripCommonSpec(paths).Ok?
    ensures var (tails, i) := StripCommonSpec(paths).value;
      |tails| == |paths| && i <= |paths[0]| &&
      forall k :: 0 <= k < |paths| ==> paths[0][..i] + tails[k] == paths[k]
  {
    var i := StripCommonSpec(paths).value.1;
    ScanFromMeaning(paths, 0);
    forall k | 0 <= k < |paths|
      ensures paths[0][..i] + paths[k][i..] == paths[k]
    {
      assert paths[k][..i] == paths[0][..i] by {
        forall m | 0 <= m < i ensures paths[k][m] == paths[0][m] {
          assert Agree(paths, m);
        }
      }
      assert paths[k][..i] + paths[k][i..] == paths[k];
    }
  }

  /** `strip_common(paths)`: the `for` loop over the zipped components
      with its `break`, then the list of stripped paths. */
  method StripCommon(paths: seq<Parts>) returns (r: Result<(seq<Parts>, nat)>)
    ensures r == StripCommonSpec(paths)
  {
    var w := ZipWidth(paths);
    if w == 0 {
      return Err(UnboundLocalError);
    }
    var i := 0;
    while i < w - 1 && Agree(paths, i)
      invariant 0 <= i < w
      invariant ScanFrom(paths, i) == ScanFrom(paths, 0)
      decreases w - i
    {
      i := i + 1;
    }
    return Ok((Tails(paths, i), i));
  }

  /** The classification of a compared pair of files. */
  datatype DiffType = Same | InnerPathsDiffer | SomethingElseDiffers

  /** A compared pair: the two files, their digests and the derived type. */
  datatype Diff = Diff(f1: Parts, f2: Parts, d1: string, d2: string, diffType: DiffType)

  /** `Diff.init_diff_type`: two digests that differ mean something else
      differs, equal digests mean the same file. */
  function InitDiffType(d1: string, d2: string): (t: DiffType)
    ensures t == Same <==> d1 == d2
    ensures t == SomethingElseDiffers <==> d1 != d2
    ensures t != InnerPathsDiffer
  {
    if d1 != d2 then SomethingElseDiffers else Same
  }

  /** `Diff(f1, f2, d1, d2)`: the type is derived from the digests. */
  function MakeDiff(f1: Parts, f2: Parts, d1: string, d2: string): (d: Diff)
    ensures d.f1 == f1 && d.f2 == f2 && d.d1 == d1 && d.d2 == d2
    ensures d.diffType == Same <==> d1 == d2
    ensures d.diffType != InnerPathsDiffer
  {
    Diff(f1, f2, d1, d2, InitDiffType(d1, d2))
  }
}
