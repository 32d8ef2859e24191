/** Helpers for packing ORCA jobs onto the 16-CPU blades of a batch
    machine (blacklight/blacklight.py): the choice of a group size, joining
    strings with a delimiter, the `cp` brace list, one `dplace` line per job
    at its own CPU offset, and the CPU count requested for a group. */
module Blacklight {
  import opened Py
  import opened Strs

  // ---------------------------------------------------------------------
  // optimal_group_size

  /** `group_size - (listlen % group_size)`, with Python's floored `%`.
      For a positive size it lies in `1 .. size`, and equals the size
      exactly when the size divides the length. */
  function Remainder(listlen: int, g: int): (r: int)
    requires g != 0
    ensures g > 0 ==> 1 <= r <= g && (r == g <==> listlen % g == 0)
    ensures g < 0 ==> g <= r < 0
  {
    g - PyMod(listlen, g).value
  }

  /** `b` is the choice `optimal_group_size` makes among the sizes
      `lo .. hi`: the least remainder, ties going to the larger size (the
      loop counts down and replaces only on a strictly smaller value). */
  predicate Optimal(listlen: int, lo: int, hi: int, b: int)
  {
    lo <= b <= hi && b != 0
    && (forall g :: lo <= g <= hi && g != 0 ==> Remainder(listlen, g) >= Remainder(listlen, b))
    && (forall g :: b < g <= hi && g != 0 ==> Remainder(listlen, g) > Remainder(listlen, b))
  }

  /** No size in `lo .. hi` beats the starting value 999 of the running
      minimum. */
  predicate NoneBelowSentinel(listlen: int, lo: int, hi: int)
  {
    forall g :: lo <= g <= hi && g != 0 ==> Remainder(listlen, g) >= 999
  }

  /** `optimal_group_size(l, min_group_size, max_group_size)` for a list of
      length `listlen`. The running minimum starts at 999 and the answer at
      999, so when no size scores below 999 (in particular when the range
      is empty) the answer stays 999. A range containing 0 divides by zero
      when the counter reaches it. */
  method OptimalGroupSize(listlen: nat, minGroupSize: int, maxGroupSize: int) returns (r: Result<int>)
    ensures r.Err? <==> minGroupSize <= 0 <= maxGroupSize
    ensures r.Err? ==> r.exc == ZeroDivisionError
    ensures r.Ok? ==>
      (Optimal(listlen, minGroupSize, maxGroupSize, r.value) && Remainder(listlen, r.value) < 999)
      || (r.value == 999 && NoneBelowSentinel(listlen, minGroupSize, maxGroupSize))
  {
    var minRemainder, bestGroupSize := 999, 999;
    var counter := maxGroupSize;
    while counter >= minGroupSize
      invariant counter <= maxGroupSize
      invariant counter >= minGroupSize - 1 || counter == maxGroupSize
      invariant !(counter < 0 <= maxGroupSize)
      invariant (bestGroupSize == 999 && minRemainder == 999 && NoneBelowSentinel(listlen, counter + 1, maxGroupSize))
        || (counter < bestGroupSize <= maxGroupSize && bestGroupSize != 0
            && minRemainder == Remainder(listlen, bestGroupSize) < 999
            && (forall g :: counter < g <= maxGroupSize && g != 0 ==> Remainder(listlen, g) >= minRemainder)
            && (forall g :: bestGroupSize < g <= maxGroupSize && g != 0 ==> Remainder(listlen, g) > minRemainder))
      decreases counter - minGroupSize
    {
      var groupSize := counter;
      var m := PyMod(listlen, groupSize);
      if m.Err? {
        return Err(m.exc);
      }
      var newRemainder := groupSize - m.value;
      assert newRemainder == Remainder(listlen, groupSize);
      if newRemainder < minRemainder {
        minRemainder, bestGroupSize := newRemainder, groupSize;
      }
      counter := counter - 1;
    }
    return Ok(bestGroupSize);
  }

  /** With sizes below 999, as with the defaults 4 and 10, the answer lies
      in the range. */
  lemma InRangeBelowSentinel(listlen: nat, lo: int, hi: int, b: int)
    requires 0 < lo <= hi < 999
    requires (Optimal(listlen, lo, hi, b) && Remainder(listlen, b) < 999)
             || (b == 999 && NoneBelowSentinel(listlen, lo, hi))
    ensures lo <= b <= hi
  {
    assert Remainder(listlen, hi) < 999;
  }

  /** With sizes from 1000 up and a length they all divide, every remainder
      is at least 999, so the answer is the sentinel 999, outside the
      range. */
  method SentinelEscapesRange() returns (r: Result<int>)
    ensures r == Ok(999)
  {
    r := OptimalGroupSize(0, 1000, 1000);
    assert Remainder(0, 1000) == 1000;
  }

  /** `optimal_group_size` with the running minimum starting out empty
      instead of at 999: the first size tried is always taken, so a
      non-empty range free of 0 always yields an optimal size inside it; an
      empty range still yields 999. */
  method OptimalGroupSizeFixed(listlen: nat, minGroupSize: int, maxGroupSize: int) returns (r: Result<int>)
    ensures r.Err? <==> minGroupSize <= 0 <= maxGroupSize
    ensures r.Err? ==> r.exc == ZeroDivisionError
    ensures r.Ok? && minGroupSize <= maxGroupSize ==> Optimal(listlen, minGroupSize, maxGroupSize, r.value)
    ensures minGroupSize > maxGroupSize ==> r == Ok(999)
  {
    var minRemainder: Option<int> := None;
    var bestGroupSize := 999;
    var counter := maxGroupSize;
    while counter >= minGroupSize
      invariant counter <= maxGroupSize
      invariant counter >= minGroupSize - 1 || counter == maxGroupSize
      invariant !(counter < 0 <= maxGroupSize)
      invariant (minRemainder.None? && bestGroupSize == 999 && counter == maxGroupSize)
        || (minRemainder.Some? && counter < bestGroupSize <= maxGroupSize && bestGroupSize != 0
            && minRemainder.value == Remainder(listlen, bestGroupSize)
            && (forall g :: counter < g <= maxGroupSize && g != 0 ==> Remainder(listlen, g) >= minRemainder.value)
            && (forall g :: bestGroupSize < g <= maxGroupSize && g != 0 ==> Remainder(listlen, g) > minRemainder.value))
      decreases counter - minGroupSize
    {
      var groupSize := counter;
      var m := PyMod(listlen, groupSize);
      if m.Err? {
        return Err(m.exc);
      }
      var newRemainder := groupSize - m.value;
      assert newRemainder == Remainder(listlen, groupSize);
      if minRemainder.None? || newRemainder < minRemainder.value {
        minRemainder, bestGroupSize := Some(newRemainder), groupSize;
      }
      counter := counter - 1;
    }
    return Ok(bestGroupSize);
  }

  // ---------------------------------------------------------------------
  // add_delimiters and gen_cp_string

  /** Each string followed by the delimiter, concatenated. */
  function Terminated(delim: string, xs: seq<string>): string
    decreases |xs|
  {
    if |xs| == 0 then "" else Terminated(delim, xs[..|xs| - 1]) + xs[|xs| - 1] + delim
  }

  /** Terminating all but the last string and then appending the last is
      joining them all. */
  lemma {:induction false} TerminatedJoin(delim: string, xs: seq<string>, x: string)
    ensures Terminated(delim, xs) + x == Join(delim, xs + [x])
    decreases |xs|
  {
    if |xs| == 0 {
      assert xs + [x] == [x];
    } else {
      var ys := xs[..|xs| - 1];
      var y := xs[|xs| - 1];
      TerminatedJoin(delim, ys, y);
      assert ys + [y] == xs;
      JoinSnoc(delim, xs, x);
    }
  }

  /** The position of the first occurrence of `x` in `xs`. */
  function IndexOf(xs: seq<string>, x: string): (k: nat)
    requires x in xs
    ensures k < |xs| && xs[k] == x
    ensures forall i :: 0 <= i < k ==> xs[i] != x
  {
    if xs[0] == x then 0 else 1 + IndexOf(xs[1..], x)
  }

  /** What `add_delimiters(l, delim)` returns: the strings up to and
      including the first one equal to the last, joined by the delimiter;
      nothing (`None`) for an empty list, whose loop never runs. */
  function AddDelimitersSpec(l: seq<string>, delim: string): Option<string>
  {
    if |l| == 0 then None else Some(Join(delim, l[..IndexOf(l, l[|l| - 1]) + 1]))
  }

  /** `add_delimiters(l, delim)`. */
  method AddDelimiters(l: seq<string>, delim: string) returns (r: Option<string>)
    ensures r == AddDelimitersSpec(l, delim)
  {
    var tmp := "";
    var i := 0;
    while i < |l|
      invariant 0 <= i <= |l|
      invariant forall k :: 0 <= k < i ==> l[k] != l[|l| - 1]
      invariant tmp == Terminated(delim, l[..i])
    {
      var element := l[i];
      if element == l[|l| - 1] {
        TerminatedJoin(delim, l[..i], element);
        assert l[..i] + [element] == l[..i + 1];
        tmp := tmp + element;
        return Some(tmp);
      }
      assert l[..i + 1][..i] == l[..i];
      tmp := tmp + element + delim;
      i := i + 1;
    }
    return None;
  }

  /** When the last string occurs nowhere else, `add_delimiters` is
      `delim.join(l)`. */
  lemma AddDelimitersIsJoin(l: seq<string>, delim: string)
    requires |l| > 0
    requires forall k :: 0 <= k < |l| - 1 ==> l[k] != l[|l| - 1]
    ensures AddDelimitersSpec(l, delim) == Some(Join(delim, l))
  {
    assert l[..|l|] == l;
  }

  /** An earlier copy of the last string cuts the result short:
      `add_delimiters(["a", "b", "a"], ",")` is `"a"`, not `"a,b,a"`. */
  lemma AddDelimitersStopsEarly()
    ensures AddDelimitersSpec(["a", "b", "a"], ",") == Some("a")
  {
    var l := ["a", "b", "a"];
    assert IndexOf(l, "a") == 0;
    assert l[..1] == ["a"];
  }

  /** `gen_cp_string(l)`: the comma-joined list in braces. For an empty list
      `add_delimiters` gives `None`, and concatenating it to a string is a
      TypeError. */
  function GenCpString(l: seq<string>): (r: Result<string>)
    ensures r.Err? <==> |l| == 0
    ensures r.Err? ==> r.exc == TypeError
    ensures r.Ok? ==> |r.value| >= 2 && r.value[0] == '{' && r.value[|r.value| - 1] == '}'
  {
    match AddDelimitersSpec(l, ",")
    case None => Err(TypeError)
    case Some(s) => Ok("{" + s + "}")
  }

  lemma GenCpStringIsBraceList(l: seq<string>)
    requires |l| > 0
    requires forall k :: 0 <= k < |l| - 1 ==> l[k] != l[|l| - 1]
    ensures GenCpString(l) == Ok("{" + Join(",", l) + "}")
  {
    AddDelimitersIsJoin(l, ",");
  }

  // ---------------------------------------------------------------------
  // gen_job_strings and ncpus

  /** The command for one job, without its newline. */
  function JobText(procOffset: int, f: string): string
  {
    "dplace -c " + IntToString(procOffset) + " `which orca` " + f + ".inp >& $PBS_O_WORKDIR/" + f + ".out &"
  }

  /** What `gen_job_strings` builds for the first files of a group: each
      file's command on its own line, the `k`-th at CPU offset `16 * k`. */
  function JobStrings(group: seq<string>): string
    decreases |group|
  {
    if |group| == 0 then ""
    else JobStrings(group[..|group| - 1]) + JobText(16 * (|group| - 1), group[|group| - 1]) + "\n"
  }

  /** `gen_job_strings(group)`. */
  method GenJobStrings(group: seq<string>) returns (orcaCall: string)
    ensures orcaCall == JobStrings(group)
  {
    var procOffset := 0;
    orcaCall := "";
    var i := 0;
    while i < |group|
      invariant 0 <= i <= |group|
      invariant procOffset == 16 * i
      invariant orcaCall == JobStrings(group[..i])
    {
      assert group[..i + 1][..i] == group[..i];
      orcaCall := orcaCall + JobText(procOffset, group[i]) + "\n";
      procOffset := procOffset + 16;
      i := i + 1;
    }
    assert group[..|group|] == group;
  }

  /** The command lines, one per file in order. */
  function JobTexts(group: seq<string>): (r: seq<string>)
    ensures |r| == |group|
  {
    seq(|group|, k requires 0 <= k < |group| => JobText(16 * k, group[k]))
  }

  lemma {:induction false} JobStringsTerminated(group: seq<string>)
    ensures JobStrings(group) == Terminated("\n", JobTexts(group))
    decreases |group|
  {
    if |group| > 0 {
      var front := group[..|group| - 1];
      JobStringsTerminated(front);
      assert JobTexts(group)[..|group| - 1] == JobTexts(front);
    }
  }

  /** For file names without newlines, splitting the output at newlines
      gives exactly one command per file, the `k`-th at offset `16 * k`,
      followed by the empty text after the final newline. */
  lemma JobStringsLines(group: seq<string>)
    requires forall k :: 0 <= k < |group| ==> '\n' !in group[k]
    ensures Split(JobStrings(group), '\n') == JobTexts(group) + [""]
  {
    JobStringsTerminated(group);
    JobTextsHaveNoNewline(group);
    TerminatedLines(JobTexts(group));
  }

  /** Lines without newlines, each terminated by one, split back into
      those lines and the empty text after the last newline. */
  lemma TerminatedLines(texts: seq<string>)
    requires forall k :: 0 <= k < |texts| ==> '\n' !in texts[k]
    ensures Split(Terminated("\n", texts), '\n') == texts + [""]
  {
    var pieces := texts + [""];
    TerminatedJoin("\n", texts, "");
    assert Terminated("\n", texts) + "" == Terminated("\n", texts);
    forall k | 0 <= k < |pieces| ensures '\n' !in pieces[k] {
      if k < |texts| {
        assert pieces[k] == texts[k];
      }
    }
    SplitJoin(pieces, '\n');
  }

  lemma JobTextsHaveNoNewline(group: seq<string>)
    requires forall k :: 0 <= k < |group| ==> '\n' !in group[k]
    ensures forall k :: 0 <= k < |JobTexts(group)| ==> '\n' !in JobTexts(group)[k]
  {
    forall k | 0 <= k < |group| ensures '\n' !in JobTexts(group)[k] {
      JobTextHasNoNewline(16 * k, group[k]);
    }
  }

  lemma JobTextHasNoNewline(procOffset: int, f: string)
    requires '\n' !in f
    ensures '\n' !in JobText(procOffset, f)
  {
    var n := IntToString(procOffset);
    IntToStringHasNoSeparator(procOffset, '\n');
    CommandHeadOneLine(n);
    CommandTailOneLine(f);
    assert JobText(procOffset, f) == ("dplace -c " + n + " `which orca` ") + f + (".inp >& $PBS_O_WORKDIR/" + f + ".out &");
  }

  lemma CommandHeadOneLine(n: string)
    requires '\n' !in n
    ensures '\n' !in "dplace -c " + n + " `which orca` "
  {
  }

  lemma CommandTailOneLine(f: string)
    requires '\n' !in f
    ensures '\n' !in ".inp >& $PBS_O_WORKDIR/" + f + ".out &"
  {
  }

  /** `ncpus` in `gen_pbsfile`: sixteen CPUs per file of the group. */
  function Ncpus(f: seq<string>): (n: nat)
    ensures n % 16 == 0 && n / 16 == |f|
  {
    |f| * 16
  }

  /** The text generated for the first `i` files starts the text for the
      whole group: a later file never changes an earlier command. */
  lemma {:induction false} JobStringsPrefix(group: seq<string>, i: nat)
    requires i <= |group|
    ensures JobStrings(group[..i]) <= JobStrings(group)
    decreases |group|
  {
    if i < |group| {
      var front := group[..|group| - 1];
      assert front[..i] == group[..i];
      JobStringsPrefix(front, i);
    } else {
      assert group[..i] == group;
    }
  }

  /** The `k`-th file's command, placed right after the commands of the
      files before it, runs it on the sixteen CPUs from offset `16 * k`,
      and those CPUs lie within the `ncpus` the job file requests. */
  lemma JobsFitInCpus(group: seq<string>, k: nat)
    requires k < |group|
    ensures JobStrings(group[..k]) + JobText(16 * k, group[k]) + "\n" <= JobStrings(group)
    ensures 0 <= 16 * k && 16 * k + 15 < Ncpus(group)
  {
    var upto := group[..k + 1];
    assert upto[..|upto| - 1] == group[..k];
    assert upto[|upto| - 1] == group[k];
    JobStringsPrefix(group, k + 1);
  }
}
