/** The Python string operations the scripts are built from, on `seq<char>`:
    `sep.join`, `split`, `strip`, `lower`, `replace`, `in`, `str(int)` and
    `int(str)`. Each is defined once here, with the facts the script models
    rely on. */
module Strs {
  import opened Py

  // ---------------------------------------------------------------------
  // Characters

  /** Python's `str.isspace()`: the separators `strip()` and `split()` use. */
  predicate IsSpace(c: char)
  {
    c == ' ' || ('\t' <= c <= '\r') || ('\U{1C}' <= c <= '\U{1F}')
    || c == '\U{85}' || c == '\U{A0}' || c == '\U{1680}'
    || ('\U{2000}' <= c <= '\U{200A}') || c == '\U{2028}' || c == '\U{2029}'
    || c == '\U{202F}' || c == '\U{205F}' || c == '\U{3000}'
  }

  predicate IsDigit(c: char)
  {
    '0' <= c <= '9'
  }

  /** `str.lower()` restricted to ASCII letters. */
  function LowerChar(c: char): (r: char)
    ensures !('A' <= r <= 'Z')
    ensures !('A' <= c <= 'Z') ==> r == c
  {
    if 'A' <= c <= 'Z' then (c as int + 32) as char else c
  }

  function Lower(s: string): (r: string)
    ensures |r| == |s|
    ensures forall i :: 0 <= i < |s| ==> r[i] == LowerChar(s[i])
  {
    seq(|s|, i requires 0 <= i < |s| => LowerChar(s[i]))
  }

  lemma LowerIdempotent(s: string)
    ensures Lower(Lower(s)) == Lower(s)
  {
  }

  /** `c * n` for a one-character string `c`. */
  function Repeat(c: char, n: nat): (r: string)
    ensures |r| == n
    ensures forall i :: 0 <= i < n ==> r[i] == c
  {
    seq(n, _ => c)
  }

  // ---------------------------------------------------------------------
  // Substrings

  /** `sub` occurs in `s` starting at position `i`. */
  predicate OccursAt(s: string, sub: string, i: int)
  {
    0 <= i <= |s| - |sub| && s[i..i + |sub|] == sub
  }

  /** Python's `sub in s`. */
  predicate Contains(s: string, sub: string)
  {
    exists i | 0 <= i <= |s| - |sub| :: OccursAt(s, sub, i)
  }

  /** Python's `s.startswith(p)`. */
  predicate StartsWith(s: string, p: string)
  {
    |p| <= |s| && s[..|p|] == p
  }

  /** Python's `s.endswith(p)`. */
  predicate EndsWith(s: string, p: string)
  {
    |p| <= |s| && s[|s| - |p|..] == p
  }

  lemma ContainsPrefix(s: string, p: string)
    requires StartsWith(s, p)
    ensures Contains(s, p)
  {
    assert OccursAt(s, p, 0);
  }

  // ---------------------------------------------------------------------
  // Stripping

  // The strip functions carry only a length bound in their contracts: their
  // shape is stated by the lemmas below, which callers invoke where needed.

  function LStrip(s: string): (r: string)
    ensures |r| <= |s|
    decreases |s|
  {
    if |s| > 0 && IsSpace(s[0]) then LStrip(s[1..]) else s
  }

  /** `lstrip()` removes the leading whitespace and nothing else. */
  lemma {:induction false} LStripSpec(s: string)
    ensures LStrip(s) == s[|s| - |LStrip(s)|..]
    ensures LStrip(s) == [] || !IsSpace(LStrip(s)[0])
    ensures forall i :: 0 <= i < |s| - |LStrip(s)| ==> IsSpace(s[i])
    decreases |s|
  {
    if |s| > 0 && IsSpace(s[0]) {
      LStripSpec(s[1..]);
      forall i | 1 <= i < |s| - |LStrip(s)| ensures IsSpace(s[i]) {
        assert s[i] == s[1..][i - 1];
      }
    }
  }

  function RStrip(s: string): (r: string)
    ensures |r| <= |s|
    decreases |s|
  {
    if |s| > 0 && IsSpace(s[|s| - 1]) then RStrip(s[..|s| - 1]) else s
  }

  /** `rstrip()` removes the trailing whitespace and nothing else. */
  lemma {:induction false} RStripSpec(s: string)
    ensures RStrip(s) == s[..|RStrip(s)|]
    ensures RStrip(s) == [] || !IsSpace(RStrip(s)[|RStrip(s)| - 1])
    ensures forall i :: |RStrip(s)| <= i < |s| ==> IsSpace(s[i])
    decreases |s|
  {
    if |s| > 0 && IsSpace(s[|s| - 1]) {
      RStripSpec(s[..|s| - 1]);
    }
  }

  /** Python's `s.strip()`. */
  function Strip(s: string): (r: string)
    ensures |r| <= |s|
  {
    RStrip(LStrip(s))
  }

  /** The stripped text neither starts nor ends with whitespace. */
  lemma StripEnds(s: string)
    ensures Strip(s) == [] || (!IsSpace(Strip(s)[0]) && !IsSpace(Strip(s)[|Strip(s)| - 1]))
  {
    var l := LStrip(s);
    LStripSpec(s);
    RStripSpec(l);
    if Strip(s) != [] {
      assert Strip(s)[0] == l[0];
    }
  }

  /** A string without whitespace at either end is its own strip. */
  lemma StripNoop(s: string)
    requires s == [] || (!IsSpace(s[0]) && !IsSpace(s[|s| - 1]))
    ensures Strip(s) == s
  {
  }

  lemma StripEmptyIffAllSpace(s: string)
    ensures Strip(s) == [] <==> forall i :: 0 <= i < |s| ==> IsSpace(s[i])
  {
    var l := LStrip(s);
    LStripSpec(s);
    RStripSpec(l);
    if Strip(s) == [] {
      assert l == [];
    } else {
      var k := |s| - |l|;
      assert l != [] && s[k] == l[0];
    }
  }

  /** Python's `s.lstrip(c)` for a single character `c`. */
  function LStripChar(s: string, c: char): (r: string)
    ensures |r| <= |s|
    decreases |s|
  {
    if |s| > 0 && s[0] == c then LStripChar(s[1..], c) else s
  }

  /** `lstrip(c)` removes the leading copies of `c` and nothing else. */
  lemma {:induction false} LStripCharSpec(s: string, c: char)
    ensures LStripChar(s, c) == s[|s| - |LStripChar(s, c)|..]
    ensures LStripChar(s, c) == [] || LStripChar(s, c)[0] != c
    ensures forall i :: 0 <= i < |s| - |LStripChar(s, c)| ==> s[i] == c
    decreases |s|
  {
    if |s| > 0 && s[0] == c {
      LStripCharSpec(s[1..], c);
      forall i | 1 <= i < |s| - |LStripChar(s, c)| ensures s[i] == c {
        assert s[i] == s[1..][i - 1];
      }
    }
  }

  /** Python's `s.rstrip(c)` for a single character `c`. */
  function RStripChar(s: string, c: char): (r: string)
    ensures |r| <= |s|
    decreases |s|
  {
    if |s| > 0 && s[|s| - 1] == c then RStripChar(s[..|s| - 1], c) else s
  }

  /** `rstrip(c)` removes the trailing copies of `c` and nothing else. */
  lemma {:induction false} RStripCharSpec(s: string, c: char)
    ensures RStripChar(s, c) == s[..|RStripChar(s, c)|]
    ensures RStripChar(s, c) == [] || RStripChar(s, c)[|RStripChar(s, c)| - 1] != c
    ensures forall i :: |RStripChar(s, c)| <= i < |s| ==> s[i] == c
    decreases |s|
  {
    if |s| > 0 && s[|s| - 1] == c {
      RStripCharSpec(s[..|s| - 1], c);
    }
  }

  // ---------------------------------------------------------------------
  // Joining and splitting

  /** Python's `sep.join(xs)`. */
  function Join(sep: string, xs: seq<string>): (r: string)
    decreases |xs|
  {
    if |xs| == 0 then "" else if |xs| == 1 then xs[0] else xs[0] + sep + Join(sep, xs[1..])
  }

  /** The sum of the lengths of `xs`. */
  function TotalLength(xs: seq<string>): nat
  {
    if |xs| == 0 then 0 else |xs[0]| + TotalLength(xs[1..])
  }

  lemma {:induction false} JoinLength(sep: string, xs: seq<string>)
    ensures |Join(sep, xs)| == TotalLength(xs) + (if |xs| == 0 then 0 else (|xs| - 1) * |sep|)
    decreases |xs|
  {
    if |xs| > 1 {
      JoinLength(sep, xs[1..]);
    }
  }

  lemma {:induction false} JoinSnoc(sep: string, xs: seq<string>, x: string)
    requires |xs| > 0
    ensures Join(sep, xs + [x]) == Join(sep, xs) + sep + x
    decreases |xs|
  {
    if |xs| == 1 {
      assert xs + [x] == [xs[0], x];
    } else {
      assert (xs + [x])[1..] == xs[1..] + [x];
      JoinSnoc(sep, xs[1..], x);
    }
  }

  /** Python's `s.split(c)` for a one-character separator `c`. */
  function Split(s: string, c: char): (r: seq<string>)
    ensures |r| >= 1
    decreases |s|
  {
    if |s| == 0 then [""]
    else
      var rest := Split(s[1..], c);
      if s[0] == c then [""] + rest else [[s[0]] + rest[0]] + rest[1..]
  }

  lemma {:induction false} SplitPiecesAvoidSeparator(s: string, c: char)
    ensures forall k :: 0 <= k < |Split(s, c)| ==> c !in Split(s, c)[k]
    decreases |s|
  {
    if |s| > 0 {
      SplitPiecesAvoidSeparator(s[1..], c);
    }
  }

  /** Joining the pieces of a split with the separator gives back the string. */
  lemma {:induction false} JoinSplit(s: string, c: char)
    ensures Join([c], Split(s, c)) == s
    decreases |s|
  {
    if |s| > 0 {
      var rest := Split(s[1..], c);
      JoinSplit(s[1..], c);
      if s[0] == c {
        assert Split(s, c) == [""] + rest;
        assert ([""] + rest)[1..] == rest;
      } else {
        var r := [[s[0]] + rest[0]] + rest[1..];
        assert r[1..] == rest[1..];
        if |rest| == 1 {
          assert Join([c], rest) == rest[0];
        } else {
          assert Join([c], rest) == rest[0] + [c] + Join([c], rest[1..]);
        }
      }
    }
  }

  /** Splitting a join undoes it when no piece contains the separator. */
  lemma {:induction false} SplitJoin(xs: seq<string>, c: char)
    requires |xs| >= 1
    requires forall k :: 0 <= k < |xs| ==> c !in xs[k]
    ensures Split(Join([c], xs), c) == xs
    decreases |xs|, |xs[0]|
  {
    if |xs[0]| == 0 {
      if |xs| > 1 {
        assert Join([c], xs) == [c] + Join([c], xs[1..]);
        assert ([c] + Join([c], xs[1..]))[1..] == Join([c], xs[1..]);
        SplitJoin(xs[1..], c);
        assert [""] + xs[1..] == xs;
      }
    } else {
      var x := xs[0];
      var ys := [x[1..]] + xs[1..];
      assert ys[1..] == xs[1..];
      forall k | 0 <= k < |ys| ensures c !in ys[k] {
        if k == 0 {
          assert forall j :: 0 <= j < |x[1..]| ==> x[1..][j] == x[j + 1];
        }
      }
      if |xs| == 1 {
        assert Join([c], xs) == x;
        assert Join([c], ys) == x[1..];
      } else {
        assert Join([c], xs) == x + [c] + Join([c], xs[1..]);
        assert Join([c], ys) == x[1..] + [c] + Join([c], xs[1..]);
        assert (x + [c] + Join([c], xs[1..]))[1..] == x[1..] + [c] + Join([c], xs[1..]);
      }
      SplitJoin(ys, c);
      assert x == [x[0]] + x[1..];
      assert [[x[0]] + ys[0]] + ys[1..] == xs;
    }
  }

  /** Python's `s.split()` with no argument: the maximal runs of
      non-whitespace characters, in order. */
  function SplitWs(s: string): (r: seq<string>)
    ensures forall k :: 0 <= k < |r| ==> |r[k]| > 0 && forall j :: 0 <= j < |r[k]| ==> !IsSpace(r[k][j])
    ensures |s| > 0 && !IsSpace(s[0]) ==> |r| > 0 && r[0][0] == s[0]
    ensures (forall i :: 0 <= i < |s| ==> IsSpace(s[i])) ==> r == []
    decreases |s|
  {
    if |s| == 0 then []
    else
      var rest := SplitWs(s[1..]);
      if IsSpace(s[0]) then rest
      else if |s| > 1 && !IsSpace(s[1]) then [[s[0]] + rest[0]] + rest[1..]
      else [[s[0]]] + rest
  }

  lemma {:induction false} SplitWsEmptyIffBlank(s: string)
    ensures SplitWs(s) == [] <==> Strip(s) == []
    decreases |s|
  {
    StripEmptyIffAllSpace(s);
    if |s| > 0 {
      SplitWsEmptyIffBlank(s[1..]);
      StripEmptyIffAllSpace(s[1..]);
    }
  }

  // ---------------------------------------------------------------------
  // Replacing

  /** Python's `s.replace(pat, rep)`: every non-overlapping occurrence of
      `pat`, scanned from the left, is replaced; an empty `pat` inserts `rep`
      before every character and at the end. */
  function ReplaceAll(s: string, pat: string, rep: string): (r: string)
    decreases |s|
  {
    if |pat| == 0 then
      if |s| == 0 then rep else rep + [s[0]] + ReplaceAll(s[1..], pat, rep)
    else if |s| < |pat| then s
    else if s[..|pat|] == pat then rep + ReplaceAll(s[|pat|..], pat, rep)
    else [s[0]] + ReplaceAll(s[1..], pat, rep)
  }

  /** A string without an occurrence of `pat` is left unchanged. */
  lemma {:induction false} ReplaceAbsent(s: string, pat: string, rep: string)
    requires |pat| > 0 && !Contains(s, pat)
    ensures ReplaceAll(s, pat, rep) == s
    decreases |s|
  {
    if |s| >= |pat| {
      assert !OccursAt(s, pat, 0);
      assert s[0..0 + |pat|] == s[..|pat|];
      forall i | 0 <= i <= |s[1..]| - |pat| ensures !OccursAt(s[1..], pat, i) {
        assert s[1..][i..i + |pat|] == s[i + 1..i + 1 + |pat|];
        assert !OccursAt(s, pat, i + 1);
      }
      ReplaceAbsent(s[1..], pat, rep);
    }
  }

  /** A front part in which no occurrence of `pat` starts is copied
      unchanged. */
  lemma {:induction false} ReplaceSkip(p: string, x: string, pat: string, rep: string)
    requires |pat| > 0
    requires forall k :: 0 <= k < |p| ==> !OccursAt(p + x, pat, k)
    ensures ReplaceAll(p + x, pat, rep) == p + ReplaceAll(x, pat, rep)
    decreases |p|
  {
    var s := p + x;
    if |p| == 0 {
      assert s == x;
    } else if |s| < |pat| {
      assert |x| < |pat|;
    } else {
      assert !OccursAt(s, pat, 0);
      assert s[0..0 + |pat|] == s[..|pat|];
      assert ReplaceAll(s, pat, rep) == [s[0]] + ReplaceAll(s[1..], pat, rep);
      assert s[1..] == p[1..] + x;
      NoOccurrenceShift(p, x, pat);
      ReplaceSkip(p[1..], x, pat, rep);
      assert [p[0]] + p[1..] == p;
    }
  }

  /** Dropping the first character of the front part keeps its positions
      free of `pat`. */
  lemma NoOccurrenceShift(p: string, x: string, pat: string)
    requires |p| > 0
    requires forall k :: 0 <= k < |p| ==> !OccursAt(p + x, pat, k)
    ensures forall k :: 0 <= k < |p[1..]| ==> !OccursAt(p[1..] + x, pat, k)
  {
    var s := p + x;
    assert s[1..] == p[1..] + x;
    forall k | 0 <= k < |p[1..]| ensures !OccursAt(p[1..] + x, pat, k) {
      assert !OccursAt(s, pat, k + 1);
      if 0 <= k <= |s[1..]| - |pat| {
        assert s[1..][k..k + |pat|] == s[k + 1..k + 1 + |pat|];
      }
    }
  }

  /** The whole of `pat` is replaced by `rep`. */
  lemma ReplaceWhole(pat: string, rep: string)
    requires |pat| > 0
    ensures ReplaceAll(pat, pat, rep) == rep
  {
    assert pat[..|pat|] == pat && pat[|pat|..] == [];
    assert rep + [] == rep;
  }

  /** Replacing one character by another acts position by position. */
  lemma {:induction false} ReplaceCharPointwise(s: string, a: char, b: char)
    ensures |ReplaceAll(s, [a], [b])| == |s|
    ensures forall i :: 0 <= i < |s| ==> ReplaceAll(s, [a], [b])[i] == (if s[i] == a then b else s[i])
    decreases |s|
  {
    if |s| > 0 {
      ReplaceCharPointwise(s[1..], a, b);
      assert s[..1] == [s[0]];
    }
  }

  /** Deleting a character keeps the others, in order. */
  lemma {:induction false} RemoveCharSpec(s: string, a: char)
    ensures a !in ReplaceAll(s, [a], "")
    ensures |s| == |ReplaceAll(s, [a], "")| + multiset(s)[a]
    decreases |s|
  {
    if |s| > 0 {
      RemoveCharSpec(s[1..], a);
      assert s[..1] == [s[0]];
      assert s == [s[0]] + s[1..];
      assert multiset(s) == multiset{s[0]} + multiset(s[1..]);
    }
  }

  // ---------------------------------------------------------------------
  // Integers and their decimal text

  function DigitChar(d: nat): (c: char)
    requires d < 10
    ensures IsDigit(c) && c as int - '0' as int == d
  {
    ('0' as int + d) as char
  }

  /** `str(n)` for a natural number: its decimal digits, no leading zero. */
  function NatToString(n: nat): (r: string)
    ensures |r| >= 1
    ensures forall i :: 0 <= i < |r| ==> IsDigit(r[i])
    ensures r[0] == '0' ==> n == 0 && r == "0"
  {
    if n < 10 then [DigitChar(n)] else NatToString(n / 10) + [DigitChar(n % 10)]
  }

  /** `str(i)` for a Python int. */
  function IntToString(i: int): (r: string)
    ensures |r| >= 1
    ensures i >= 0 ==> r == NatToString(i)
    ensures i < 0 ==> r == "-" + NatToString(-i)
  {
    if i < 0 then "-" + NatToString(-i) else NatToString(i)
  }

  lemma IntToStringHasNoSeparator(i: int, c: char)
    requires !IsDigit(c) && c != '-'
    ensures c !in IntToString(i)
  {
  }

  /** The value of a string of decimal digits. */
  function DigitsValue(s: string): (n: int)
    requires forall i :: 0 <= i < |s| ==> IsDigit(s[i])
    ensures n >= 0
  {
    if |s| == 0 then 0
    else
      var c := s[|s| - 1];
      assert IsDigit(c);
      10 * DigitsValue(s[..|s| - 1]) + (c as int - '0' as int)
  }

  lemma {:induction false} DigitsValueOfNatToString(n: nat)
    ensures DigitsValue(NatToString(n)) == n
  {
    if n >= 10 {
      var r := NatToString(n);
      DigitsValueOfNatToString(n / 10);
      assert r[..|r| - 1] == NatToString(n / 10);
    }
  }

  predicate AllDigits(s: string)
  {
    forall j | 0 <= j < |s| :: IsDigit(s[j])
  }

  /** One or more decimal digits, else ValueError. */
  function ParseUnsigned(b: string): (r: Result<int>)
    ensures r.Err? ==> r.exc == ValueError
  {
    if |b| > 0 && AllDigits(b) then Ok(DigitsValue(b)) else Err(ValueError)
  }

  /** Python's `int(s)` for a plain decimal literal: surrounding whitespace,
      an optional sign, then one or more digits; anything else raises
      ValueError. */
  function ParseInt(s: string): (r: Result<int>)
    ensures r.Err? ==> r.exc == ValueError
  {
    var t := Strip(s);
    if |t| > 0 && t[0] == '-' then
      match ParseUnsigned(t[1..])
      case Ok(v) => Ok(-v)
      case Err(e) => Err(e)
    else if |t| > 0 && t[0] == '+' then ParseUnsigned(t[1..])
    else ParseUnsigned(t)
  }

  /** `int()` of every text, or the first ValueError. */
  function ParseAll(ts: seq<string>): (r: Result<seq<int>>)
    ensures r.Ok? ==> |r.value| == |ts|
    ensures r.Err? ==> r.exc == ValueError
  {
    if |ts| == 0 then Ok([])
    else
      match ParseInt(ts[0])
      case Err(e) => Err(e)
      case Ok(n) =>
        match ParseAll(ts[1..])
        case Err(e) => Err(e)
        case Ok(ns) => Ok([n] + ns)
  }

  lemma ParseIntOfDigits(d: string)
    requires |d| > 0 && AllDigits(d)
    ensures ParseInt(d) == Ok(DigitsValue(d))
  {
    assert !IsSpace(d[0]) && !IsSpace(d[|d| - 1]);
    StripNoop(d);
  }

  lemma ParseIntOfNegDigits(d: string)
    requires |d| > 0 && AllDigits(d)
    ensures ParseInt("-" + d) == Ok(-DigitsValue(d))
  {
    var m := "-" + d;
    assert m[0] == '-' && m[1..] == d;
    assert m[|m| - 1] == d[|d| - 1];
    StripNoop(m);
    assert ParseUnsigned(d) == Ok(DigitsValue(d));
  }


  /** `int(str(i)) == i`. */
  lemma ParseIntOfIntToString(i: int)
    ensures ParseInt(IntToString(i)) == Ok(i)
  {
    var n: nat := if i < 0 then -i else i;
    DigitsValueOfNatToString(n);
    if i < 0 {
      ParseIntOfNegDigits(NatToString(n));
    } else {
      ParseIntOfDigits(NatToString(n));
    }
  }

  /** `map(str, l)` on integers. */
  function IntStrings(l: seq<int>): (r: seq<string>)
    ensures |r| == |l|
    ensures forall i :: 0 <= i < |l| ==> r[i] == IntToString(l[i])
  {
    seq(|l|, i requires 0 <= i < |l| => IntToString(l[i]))
  }

  /** `[int(t) for t in map(str, l)] == l`. */
  lemma {:induction false} ParseAllIntStrings(l: seq<int>)
    ensures ParseAll(IntStrings(l)) == Ok(l)
    decreases |l|
  {
    if |l| > 0 {
      assert IntStrings(l)[1..] == IntStrings(l[1..]);
      ParseIntOfIntToString(l[0]);
      ParseAllIntStrings(l[1..]);
      assert l == [l[0]] + l[1..];
    }
  }
}
