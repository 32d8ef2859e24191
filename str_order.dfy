/** Python's ordering of strings (code point by code point, a proper
    prefix first) and `sorted()` over a list of distinct strings. */
module StrOrder {

  /** Python's `a < b` on strings. */
  predicate Below(a: string, b: string)
    decreases |a|
  {
    if |a| == 0 then |b| > 0
    else if |b| == 0 then false
    else if a[0] != b[0] then a[0] < b[0]
    else Below(a[1..], b[1..])
  }

  lemma {:induction false} BelowIrreflexive(a: string)
    ensures !Below(a, a)
    decreases |a|
  {
    if |a| > 0 {
      BelowIrreflexive(a[1..]);
    }
  }

  lemma {:induction false} BelowTransitive(a: string, b: string, c: string)
    requires Below(a, b) && Below(b, c)
    ensures Below(a, c)
    decreases |a|
  {
    if |a| > 0 && a[0] == b[0] && b[0] == c[0] {
      BelowTransitive(a[1..], b[1..], c[1..]);
    }
  }

  /** Two different strings are ordered one way or the other. */
  lemma {:induction false} BelowTotal(a: string, b: string)
    requires a != b
    ensures Below(a, b) || Below(b, a)
    decreases |a|
  {
    if |a| > 0 && |b| > 0 && a[0] == b[0] {
      assert a == [a[0]] + a[1..] && b == [b[0]] + b[1..];
      BelowTotal(a[1..], b[1..]);
    }
  }

  lemma {:induction false} BelowAsymmetric(a: string, b: string)
    requires Below(a, b)
    ensures !Below(b, a)
    decreases |a|
  {
    if |a| > 0 && a[0] == b[0] {
      BelowAsymmetric(a[1..], b[1..]);
    }
  }

  /** The empty string comes before every other string. */
  lemma EmptyFirst(a: string)
    requires a != ""
    ensures Below("", a)
  {
  }

  predicate Increasing(s: seq<string>)
  {
    forall i, j :: 0 <= i < j < |s| ==> Below(s[i], s[j])
  }

  /** `x` inserted into an increasing list before the first element that is
      not below it. */
  function Insert(x: string, s: seq<string>): seq<string>
    decreases |s|
  {
    if |s| == 0 then [x]
    else if Below(s[0], x) then [s[0]] + Insert(x, s[1..])
    else [x] + s
  }

  lemma InsertSpec(x: string, s: seq<string>)
    requires Increasing(s) && x !in s
    ensures multiset(Insert(x, s)) == multiset(s) + multiset{x}
    ensures Increasing(Insert(x, s))
  {
    InsertMultiset(x, s);
    InsertIncreasing(x, s);
  }

  /** Insertion adds `x` and keeps everything else. */
  lemma {:induction false} InsertMultiset(x: string, s: seq<string>)
    ensures multiset(Insert(x, s)) == multiset(s) + multiset{x}
    decreases |s|
  {
    if |s| > 0 && Below(s[0], x) {
      InsertMultiset(x, s[1..]);
      assert s == [s[0]] + s[1..];
    }
  }

  /** Insertion keeps an increasing list increasing. */
  lemma {:induction false} InsertIncreasing(x: string, s: seq<string>)
    requires Increasing(s) && x !in s
    ensures Increasing(Insert(x, s))
    decreases |s|
  {
    if |s| > 0 {
      if Below(s[0], x) {
        var r := Insert(x, s[1..]);
        InsertIncreasing(x, s[1..]);
        InsertMultiset(x, s[1..]);
        forall k | 0 <= k < |r| ensures Below(s[0], r[k]) {
          assert r[k] in multiset(r);
          if r[k] != x {
            assert r[k] in multiset(s[1..]);
            var m :| 0 <= m < |s[1..]| && s[1..][m] == r[k];
            assert s[m + 1] == r[k];
          }
        }
        IncreasingCons(s[0], r);
      } else {
        BelowTotal(x, s[0]);
        forall j | 0 <= j < |s| ensures Below(x, s[j]) {
          if j > 0 {
            BelowTransitive(x, s[0], s[j]);
          }
        }
        IncreasingCons(x, s);
      }
    }
  }

  /** An element below every element of an increasing list can go in
      front of it. */
  lemma IncreasingCons(a: string, r: seq<string>)
    requires Increasing(r)
    requires forall k :: 0 <= k < |r| ==> Below(a, r[k])
    ensures Increasing([a] + r)
  {
    forall i, j | 0 <= i < j < |r| + 1 ensures Below(([a] + r)[i], ([a] + r)[j]) {
      assert ([a] + r)[j] == r[j - 1];
      if i > 0 {
        assert ([a] + r)[i] == r[i - 1];
      }
    }
  }

  /** Python's `sorted(keys)` for distinct keys. */
  function Sorted(keys: seq<string>): seq<string>
    decreases |keys|
  {
    if |keys| == 0 then [] else Insert(keys[0], Sorted(keys[1..]))
  }

  predicate Distinct(s: seq<string>)
  {
    forall i, j :: 0 <= i < j < |s| ==> s[i] != s[j]
  }

  /** `sorted` gives a permutation of its input in increasing order. */
  lemma {:induction false} SortedSpec(keys: seq<string>)
    requires Distinct(keys)
    ensures multiset(Sorted(keys)) == multiset(keys)
    ensures Increasing(Sorted(keys))
    decreases |keys|
  {
    if |keys| > 0 {
      SortedSpec(keys[1..]);
      assert keys == [keys[0]] + keys[1..];
      assert keys[0] !in multiset(keys[1..]);
      InsertSpec(keys[0], Sorted(keys[1..]));
    }
  }

  /** Every key is in the sorted list exactly once, and nothing else is. */
  lemma SortedMembers(keys: seq<string>)
    requires Distinct(keys)
    ensures |Sorted(keys)| == |keys|
    ensures forall k :: k in Sorted(keys) <==> k in keys
  {
    SortedSpec(keys);
    assert |multiset(Sorted(keys))| == |multiset(keys)|;
    forall k ensures k in Sorted(keys) <==> k in keys {
      assert k in Sorted(keys) <==> k in multiset(Sorted(keys));
      assert k in keys <==> k in multiset(keys);
    }
  }
}
