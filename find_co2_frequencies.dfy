/** Sequence search used to locate a CO2 molecule by its atomic numbers
    (find_CO2_frequencies.py): a Boyer-Moore-Horspool `find` over any
    sequence of comparable elements, and `find_all_instances`, which calls
    it repeatedly on the rest of the haystack. */
module FindCO2Frequencies {

  /** `needle` occurs in `haystack` starting at position `p`. */
  predicate MatchAt<T(==)>(haystack: seq<T>, needle: seq<T>, p: int)
  {
    0 <= p && p + |needle| <= |haystack| && forall j :: p <= j < p + |needle| ==> haystack[j] == needle[j - p]
  }

  /** The least position at or after `p` where `needle` occurs, or -1. */
  function FirstFrom<T(==)>(haystack: seq<T>, needle: seq<T>, p: nat): int
    decreases |haystack| + 1 - p
  {
    if p + |needle| > |haystack| then -1
    else if MatchAt(haystack, needle, p) then p
    else FirstFrom(haystack, needle, p + 1)
  }

  /** The reference meaning of `find`: the least occurrence, or -1. */
  function FirstOccurrence<T(==)>(haystack: seq<T>, needle: seq<T>): int
  {
    FirstFrom(haystack, needle, 0)
  }

  lemma {:induction false} FirstFromMeaning<T>(haystack: seq<T>, needle: seq<T>, p: nat)
    ensures var r := FirstFrom(haystack, needle, p);
      (r == -1 <==> forall q :: p <= q ==> !MatchAt(haystack, needle, q))
      && (r != -1 ==>
            p <= r <= |haystack| - |needle| && MatchAt(haystack, needle, r)
            && forall q :: p <= q < r ==> !MatchAt(haystack, needle, q))
    decreases |haystack| + 1 - p
  {
    if p + |needle| > |haystack| {
    } else if !MatchAt(haystack, needle, p) {
      FirstFromMeaning(haystack, needle, p + 1);
    }
  }

  /** `find` returns the least occurrence of `needle`, which leaves room for
      the whole needle, or -1 exactly when there is none; an empty needle is
      found at 0. */
  lemma FirstOccurrenceMeaning<T>(haystack: seq<T>, needle: seq<T>)
    ensures var r := FirstOccurrence(haystack, needle);
      (r == -1 <==> forall q :: 0 <= q ==> !MatchAt(haystack, needle, q))
      && (r != -1 ==>
            0 <= r <= |haystack| - |needle| && MatchAt(haystack, needle, r)
            && forall q :: 0 <= q < r ==> !MatchAt(haystack, needle, q))
    ensures |needle| == 0 ==> FirstOccurrence(haystack, needle) == 0
  {
    FirstFromMeaning(haystack, needle, 0);
  }

  // ---------------------------------------------------------------------
  // find

  /** The first `m` entries of the skip table
      `{needle[i]: n - i - 1 for i in range(n - 1)}`: a later position of
      the same element overwrites an earlier one, so each element maps to
      the distance from its last occurrence among those positions to the
      end of the needle. */
  function SkipUpTo<T(==,!new)>(needle: seq<T>, m: nat): map<T, int>
    requires m < |needle|
  {
    if m == 0 then map[]
    else SkipUpTo(needle, m - 1)[needle[m - 1] := |needle| - m]
  }

  /** The table holds exactly the elements of the first `m` positions; the
      entry of each is the distance from its last position among them to
      the needle's end, so it lies between `n - m` and `n - 1`. */
  lemma {:induction false} SkipUpToMeaning<T(!new)>(needle: seq<T>, m: nat)
    requires m < |needle|
    ensures forall c :: c in SkipUpTo(needle, m) <==> c in needle[..m]
    ensures forall c :: c in SkipUpTo(needle, m) ==>
      |needle| - m <= SkipUpTo(needle, m)[c] <= |needle| - 1
      && needle[|needle| - 1 - SkipUpTo(needle, m)[c]] == c
      && forall k :: |needle| - 1 - SkipUpTo(needle, m)[c] < k < m ==> needle[k] != c
  {
    if m > 0 {
      SkipUpToMeaning(needle, m - 1);
      assert needle[..m] == needle[..m - 1] + [needle[m - 1]];
    }
  }

  /** The skip table of a non-empty needle. */
  function SkipTable<T(==,!new)>(needle: seq<T>): map<T, int>
    requires |needle| > 0
  {
    SkipUpTo(needle, |needle| - 1)
  }

  /** `skip.get(c, n)`. */
  function Shift<T(==,!new)>(needle: seq<T>, c: T): int
    requires |needle| > 0
  {
    var skip := SkipTable(needle);
    if c in skip then skip[c] else |needle|
  }

  /** The shift for `c` is between 1 and the needle's length; `c` sits at
      that distance from the needle's end, and at no position between there
      and the last one (for a shift of the whole length: nowhere before the
      last position). */
  lemma ShiftMeaning<T(!new)>(needle: seq<T>, c: T)
    requires |needle| > 0
    ensures 1 <= Shift(needle, c) <= |needle|
    ensures Shift(needle, c) < |needle| ==> needle[|needle| - 1 - Shift(needle, c)] == c
    ensures forall k :: |needle| - 1 - Shift(needle, c) < k < |needle| - 1 ==> needle[k] != c
  {
    var n := |needle|;
    SkipUpToMeaning(needle, n - 1);
    var skip := SkipUpTo(needle, n - 1);
    assert skip == SkipTable(needle);
    if c !in skip {
      forall k | -1 < k < n - 1 ensures needle[k] != c {
        assert needle[..n - 1][k] == needle[k];
      }
    } else {
      assert Shift(needle, c) == skip[c];
      assert needle[n - 1 - skip[c]] == c;
      forall k | n - 1 - skip[c] < k < n - 1 ensures needle[k] != c {
      }
    }
  }

  /** Every shift is between 1 and the needle's length, and no occurrence
      starts strictly between the current alignment and the shifted one: the
      element under the needle's last position would have to occur at a
      later position of the needle (other than the last) than the table
      records. */
  lemma ShiftIsSafe<T(!new)>(haystack: seq<T>, needle: seq<T>, i: int)
    requires |needle| > 0 && |needle| - 1 <= i < |haystack|
    ensures 1 <= Shift(needle, haystack[i]) <= |needle|
    ensures forall q :: i - |needle| + 1 < q < i - |needle| + 1 + Shift(needle, haystack[i]) ==> !MatchAt(haystack, needle, q)
  {
    var n := |needle|;
    var s := Shift(needle, haystack[i]);
    ShiftMeaning(needle, haystack[i]);
    forall p | i - n + 1 < p < i - n + 1 + s ensures !MatchAt(haystack, needle, p) {
      assert needle[i - p] != haystack[p + (i - p)];
    }
  }

  /** `find(haystack, needle)`: Boyer-Moore-Horspool. The needle's last
      position is aligned at `i`; the needle is compared right to left, and
      on a mismatch the alignment moves on by the skip of the haystack
      element under the needle's last position. */
  method Find<T(==,!new)>(haystack: seq<T>, needle: seq<T>) returns (r: int)
    ensures r == FirstOccurrence(haystack, needle)
  {
    var h := |haystack|;
    var n := |needle|;
    if n == 0 {
      // range(n) is empty, so the first test of the loop returns at once.
      FirstOccurrenceMeaning(haystack, needle);
      assert MatchAt(haystack, needle, 0);
      return 0;
    }
    var skip := SkipTable(needle);
    var i := n - 1;
    while i < h
      invariant n - 1 <= i
      invariant forall q :: 0 <= q < i - n + 1 ==> !MatchAt(haystack, needle, q)
      decreases h - i
    {
      var j := 0;
      var mismatch := false;
      while j < n && !mismatch
        invariant 0 <= j <= n
        invariant !mismatch ==> forall x :: i - j < x <= i ==> haystack[x] == needle[x - (i - n + 1)]
        invariant mismatch ==> j < n && haystack[i - j] != needle[n - 1 - j]
        decreases n - j, !mismatch
      {
        if haystack[i - j] != needle[n - 1 - j] {
          mismatch := true;
        } else {
          j := j + 1;
        }
      }
      if !mismatch {
        var p := i - n + 1;
        forall k | 0 <= k < n ensures haystack[p + k] == needle[k] {
          assert i - j < p + k <= i;
        }
        assert MatchAt(haystack, needle, p);
        FirstFromMeaning(haystack, needle, 0);
        LeastMatch(haystack, needle, p);
        return p;
      }
      assert !MatchAt(haystack, needle, i - n + 1) by {
        assert haystack[(i - n + 1) + (n - 1 - j)] != needle[n - 1 - j];
      }
      ShiftIsSafe(haystack, needle, i);
      var s := if haystack[i] in skip then skip[haystack[i]] else n;
      i := i + s;
    }
    NoMatchMeansMinusOne(haystack, needle);
    return -1;
  }

  /** A match before which nothing matches is the first occurrence. */
  lemma LeastMatch<T>(haystack: seq<T>, needle: seq<T>, p: int)
    requires MatchAt(haystack, needle, p)
    requires forall q :: 0 <= q < p ==> !MatchAt(haystack, needle, q)
    ensures FirstOccurrence(haystack, needle) == p
  {
    FirstFromMeaning(haystack, needle, 0);
  }

  lemma NoMatchMeansMinusOne<T>(haystack: seq<T>, needle: seq<T>)
    requires forall q :: 0 <= q <= |haystack| - |needle| ==> !MatchAt(haystack, needle, q)
    ensures FirstOccurrence(haystack, needle) == -1
  {
    FirstFromMeaning(haystack, needle, 0);
  }

  /** The example given with `find`. */
  lemma FindExample()
    ensures FirstOccurrence([1, 1, 2], [1, 2]) == 1
  {
    assert !MatchAt([1, 1, 2], [1, 2], 0) by {
      assert [1, 1, 2][0 + 1] != [1, 2][1];
    }
    assert MatchAt([1, 1, 2], [1, 2], 1);
  }

  // ---------------------------------------------------------------------
  // find_all_instances

  /** The result of `find_all_instances` once the loop has reached
      `start` with `acc` collected so far. `find` runs on the rest of the
      haystack and returns a position relative to `start`; the membership
      test compares that relative position with the absolute positions
      already collected. */
  function AllFrom<T(==)>(haystack: seq<T>, needle: seq<T>, start: nat, acc: seq<int>): seq<int>
    requires |needle| > 0 && start <= |haystack|
    decreases |haystack| - start
  {
    var index := FirstOccurrence(haystack[start..], needle);
    if index == -1 then acc
    else
      FirstOccurrenceMeaning(haystack[start..], needle);
      AllFrom(haystack, needle, start + index + 1, if index in acc then acc else acc + [start + index])
  }

  /** `find_all_instances(haystack, needle)` as written. The needle must be
      non-empty: an empty needle is found at 0 in every suffix, including
      the empty one, and the loop never ends. */
  method FindAllInstances<T(==,!new)>(haystack: seq<T>, needle: seq<T>) returns (instances: seq<int>)
    requires |needle| > 0
    ensures instances == AllFrom(haystack, needle, 0, [])
  {
    instances := [];
    var startingPosition := 0;
    var index := 0;
    while index != -1
      invariant startingPosition <= |haystack|
      invariant index != -1 ==> AllFrom(haystack, needle, startingPosition, instances) == AllFrom(haystack, needle, 0, [])
      invariant index == -1 ==> instances == AllFrom(haystack, needle, 0, [])
      decreases |haystack| - startingPosition + (if index == -1 then 0 else 1)
    {
      index := Find(haystack[startingPosition..], needle);
      AllFromUnfold(haystack, needle, startingPosition, instances);
      if index > -1 {
        if index !in instances {
          instances := instances + [startingPosition + index];
        }
        startingPosition := startingPosition + index + 1;
      }
    }
  }

  lemma AllFromUnfold<T>(haystack: seq<T>, needle: seq<T>, start: nat, acc: seq<int>)
    requires |needle| > 0 && start <= |haystack|
    ensures FirstOccurrence(haystack[start..], needle) == -1 ==> AllFrom(haystack, needle, start, acc) == acc
    ensures FirstOccurrence(haystack[start..], needle) != -1 ==>
      0 <= FirstOccurrence(haystack[start..], needle) <= |haystack| - start - |needle|
    ensures FirstOccurrence(haystack[start..], needle) != -1 ==>
      AllFrom(haystack, needle, start, acc) == AllFrom(haystack, needle, start + FirstOccurrence(haystack[start..], needle) + 1,
        if FirstOccurrence(haystack[start..], needle) in acc then acc else acc + [start + FirstOccurrence(haystack[start..], needle)])
  {
    FirstOccurrenceMeaning(haystack[start..], needle);
  }

  predicate StrictlyIncreasing(xs: seq<int>)
  {
    forall a, b :: 0 <= a < b < |xs| ==> xs[a] < xs[b]
  }

  /** A match in a suffix is a match in the whole haystack. */
  lemma SuffixMatch<T>(haystack: seq<T>, needle: seq<T>, start: nat, q: int)
    requires start <= |haystack|
    ensures MatchAt(haystack[start..], needle, q) <==> (q >= 0 && MatchAt(haystack, needle, start + q))
  {
    if q >= 0 && MatchAt(haystack, needle, start + q) {
      forall k | 0 <= k < |needle| ensures haystack[start..][q + k] == needle[k] {
        assert haystack[(start + q) + k] == needle[k];
      }
    }
  }

  /** What the search of a suffix tells about the whole haystack when it
      finds something: an occurrence at the absolute position, and none
      between `start` and it. */
  lemma FoundInSuffix<T>(haystack: seq<T>, needle: seq<T>, start: nat)
    requires |needle| > 0 && start <= |haystack| && FirstOccurrence(haystack[start..], needle) != -1
    ensures 0 <= FirstOccurrence(haystack[start..], needle)
    ensures start + FirstOccurrence(haystack[start..], needle) + |needle| <= |haystack|
    ensures MatchAt(haystack, needle, start + FirstOccurrence(haystack[start..], needle))
    ensures forall p :: start <= p < start + FirstOccurrence(haystack[start..], needle) ==> !MatchAt(haystack, needle, p)
  {
    var index := FirstOccurrence(haystack[start..], needle);
    FirstOccurrenceMeaning(haystack[start..], needle);
    SuffixMatch(haystack, needle, start, index);
    forall p | start <= p < start + index ensures !MatchAt(haystack, needle, p) {
      SuffixMatch(haystack, needle, start, p - start);
    }
  }

  /** ... and when it finds nothing: no occurrence at or after `start`. */
  lemma NotFoundInSuffix<T>(haystack: seq<T>, needle: seq<T>, start: nat)
    requires |needle| > 0 && start <= |haystack| && FirstOccurrence(haystack[start..], needle) == -1
    ensures forall p :: start <= p ==> !MatchAt(haystack, needle, p)
  {
    FirstOccurrenceMeaning(haystack[start..], needle);
    forall p | start <= p ensures !MatchAt(haystack, needle, p) {
      SuffixMatch(haystack, needle, start, p - start);
    }
  }

  /** Appending a position past every collected one keeps them in
      increasing order. */
  lemma IncreasingSnoc(acc: seq<int>, start: int, p: int)
    requires forall x :: x in acc ==> x < start
    requires StrictlyIncreasing(acc)
    requires start <= p
    ensures forall x :: x in acc + [p] ==> x < p + 1
    ensures StrictlyIncreasing(acc + [p])
  {
    forall a, b | 0 <= a < b < |acc| + 1 ensures (acc + [p])[a] < (acc + [p])[b] {
      if b == |acc| {
        assert acc[a] in acc;
      }
    }
  }

  /** `find_all_instances` only ever adds positions past the ones it has,
      so they come in strictly increasing order. */
  lemma {:induction false} AllFromIncreasing<T>(haystack: seq<T>, needle: seq<T>, start: nat, acc: seq<int>)
    requires |needle| > 0 && start <= |haystack|
    requires forall x :: x in acc ==> x < start
    requires StrictlyIncreasing(acc)
    ensures StrictlyIncreasing(AllFrom(haystack, needle, start, acc))
    decreases |haystack| - start
  {
    var index := FirstOccurrence(haystack[start..], needle);
    AllFromUnfold(haystack, needle, start, acc);
    if index == -1 {
      assert AllFrom(haystack, needle, start, acc) == acc;
    } else {
      var p := start + index;
      var acc' := if index in acc then acc else acc + [p];
      if index !in acc {
        IncreasingSnoc(acc, start, p);
      }
      assert forall x :: x in acc' ==> x < p + 1;
      AllFromIncreasing(haystack, needle, p + 1, acc');
      assert AllFrom(haystack, needle, start, acc) == AllFrom(haystack, needle, p + 1, acc');
    }
  }

  /** Every position `find_all_instances` adds is one of the occurrences at
      or after the position it has reached. */
  lemma {:induction false} AllFromWithin<T>(haystack: seq<T>, needle: seq<T>, start: nat, acc: seq<int>)
    requires |needle| > 0 && start <= |haystack|
    ensures forall x :: x in AllFrom(haystack, needle, start, acc) ==> x in acc || x in Occurrences(haystack, needle, start)
    decreases |haystack| - start
  {
    var index := FirstOccurrence(haystack[start..], needle);
    AllFromUnfold(haystack, needle, start, acc);
    OccurrencesUnfold(haystack, needle, start);
    if index != -1 {
      var p := start + index;
      var acc' := if index in acc then acc else acc + [p];
      var rest := AllFrom(haystack, needle, p + 1, acc');
      var later := Occurrences(haystack, needle, p + 1);
      AllFromWithin(haystack, needle, p + 1, acc');
      assert AllFrom(haystack, needle, start, acc) == rest;
      assert Occurrences(haystack, needle, start) == [p] + later;
      forall x | x in rest ensures x in acc || x in [p] + later {
        assert x in acc' || x in later;
      }
    }
  }

  /** Every position `find_all_instances` reports is a true occurrence, and
      the positions come in strictly increasing order. */
  lemma FindAllInstancesSound<T>(haystack: seq<T>, needle: seq<T>)
    requires |needle| > 0
    ensures StrictlyIncreasing(AllFrom(haystack, needle, 0, []))
    ensures forall x :: x in AllFrom(haystack, needle, 0, []) ==> MatchAt(haystack, needle, x)
  {
    AllFromIncreasing(haystack, needle, 0, []);
    AllFromWithin(haystack, needle, 0, []);
    OccurrencesExact(haystack, needle, 0);
  }

  /** The relative-versus-absolute comparison loses occurrences: in
      `[0, 0]` the needle `[0]` occurs at 0 and at 1, but the second search
      finds it at relative position 0, which is already collected, so only
      `[0]` is returned. */
  lemma FindAllInstancesSkipsOccurrence()
    ensures MatchAt([0, 0], [0], 1)
    ensures AllFrom([0, 0], [0], 0, []) == [0]
  {
    var h := [0, 0];
    assert MatchAt(h, [0], 0);
    LeastMatch(h, [0], 0);
    assert h[1..] == [0];
    assert MatchAt(h[1..], [0], 0);
    LeastMatch(h[1..], [0], 0);
    assert h[2..] == [];
    NoMatchMeansMinusOne(h[2..], [0]);
  }

  /** The evidently intended result: every occurrence at or after `start`,
      in order, with overlapping occurrences included. */
  function Occurrences<T(==)>(haystack: seq<T>, needle: seq<T>, start: nat): seq<int>
    requires |needle| > 0 && start <= |haystack|
    decreases |haystack| - start
  {
    var index := FirstOccurrence(haystack[start..], needle);
    FirstOccurrenceMeaning(haystack[start..], needle);
    if index == -1 then [] else [start + index] + Occurrences(haystack, needle, start + index + 1)
  }

  /** The corrected search finds exactly the occurrences at or after
      `start`, each once, in increasing order. */
  lemma {:induction false} OccurrencesExact<T>(haystack: seq<T>, needle: seq<T>, start: nat)
    requires |needle| > 0 && start <= |haystack|
    ensures forall p :: p in Occurrences(haystack, needle, start) <==> (start <= p && MatchAt(haystack, needle, p))
    ensures StrictlyIncreasing(Occurrences(haystack, needle, start))
    decreases |haystack| - start
  {
    var index := FirstOccurrence(haystack[start..], needle);
    OccurrencesUnfold(haystack, needle, start);
    if index == -1 {
      NotFoundInSuffix(haystack, needle, start);
    } else {
      FoundInSuffix(haystack, needle, start);
      var rest := Occurrences(haystack, needle, start + index + 1);
      OccurrencesExact(haystack, needle, start + index + 1);
      PrependOccurrence(haystack, needle, start, start + index, rest);
    }
  }

  /** An occurrence at `p`, none between `start` and `p`, and exactly the
      occurrences after `p` in increasing order: together, exactly the
      occurrences from `start` in increasing order. */
  lemma PrependOccurrence<T>(haystack: seq<T>, needle: seq<T>, start: nat, p: int, rest: seq<int>)
    requires start <= p && MatchAt(haystack, needle, p)
    requires forall q :: start <= q < p ==> !MatchAt(haystack, needle, q)
    requires forall q :: q in rest <==> (p + 1 <= q && MatchAt(haystack, needle, q))
    requires StrictlyIncreasing(rest)
    ensures forall q :: q in [p] + rest <==> (start <= q && MatchAt(haystack, needle, q))
    ensures StrictlyIncreasing([p] + rest)
  {
    var r := [p] + rest;
    forall q ensures q in r <==> (start <= q && MatchAt(haystack, needle, q)) {
      assert q in r <==> q == p || q in rest;
    }
    forall a, b | 0 <= a < b < |r| ensures r[a] < r[b] {
      assert r[b] == rest[b - 1] && rest[b - 1] in rest;
      if a > 0 {
        assert r[a] == rest[a - 1];
      }
    }
  }

  lemma OccurrencesUnfold<T>(haystack: seq<T>, needle: seq<T>, start: nat)
    requires |needle| > 0 && start <= |haystack|
    ensures var index := FirstOccurrence(haystack[start..], needle);
      index == -1 || 0 <= index <= |haystack| - start - |needle|
    ensures var index := FirstOccurrence(haystack[start..], needle);
      Occurrences(haystack, needle, start) ==
        if index == -1 then [] else [start + index] + Occurrences(haystack, needle, start + index + 1)
  {
    FirstOccurrenceMeaning(haystack[start..], needle);
  }

  /** `find_all_instances` with the membership test dropped: it collects
      exactly the occurrences, in increasing order. */
  method FindAllOccurrences<T(==,!new)>(haystack: seq<T>, needle: seq<T>) returns (instances: seq<int>)
    requires |needle| > 0
    ensures forall p :: p in instances <==> MatchAt(haystack, needle, p)
    ensures StrictlyIncreasing(instances)
  {
    OccurrencesExact(haystack, needle, 0);
    instances := [];
    var startingPosition := 0;
    var index := 0;
    while index != -1
      invariant startingPosition <= |haystack|
      invariant index != -1 ==> instances + Occurrences(haystack, needle, startingPosition) == Occurrences(haystack, needle, 0)
      invariant index == -1 ==> instances == Occurrences(haystack, needle, 0)
      decreases |haystack| - startingPosition + (if index == -1 then 0 else 1)
    {
      index := Find(haystack[startingPosition..], needle);
      OccurrencesStep(haystack, needle, startingPosition, instances);
      if index > -1 {
        instances := instances + [startingPosition + index];
        startingPosition := startingPosition + index + 1;
      }
    }
  }

  /** One round of the corrected loop: what is collected plus what is still
      to come stays the same. */
  lemma OccurrencesStep<T>(haystack: seq<T>, needle: seq<T>, start: nat, instances: seq<int>)
    requires |needle| > 0 && start <= |haystack|
    ensures FirstOccurrence(haystack[start..], needle) == -1 ==>
      instances == instances + Occurrences(haystack, needle, start)
    ensures FirstOccurrence(haystack[start..], needle) != -1 ==>
      0 <= FirstOccurrence(haystack[start..], needle) <= |haystack| - start - |needle|
    ensures FirstOccurrence(haystack[start..], needle) != -1 ==>
      (instances + [start + FirstOccurrence(haystack[start..], needle)])
        + Occurrences(haystack, needle, start + FirstOccurrence(haystack[start..], needle) + 1)
      == instances + Occurrences(haystack, needle, start)
  {
    var index := FirstOccurrence(haystack[start..], needle);
    OccurrencesUnfold(haystack, needle, start);
    if index == -1 {
      assert instances + [] == instances;
    } else {
      var p := start + index;
      var rest := Occurrences(haystack, needle, p + 1);
      assert (instances + [p]) + rest == instances + ([p] + rest);
    }
  }
}
