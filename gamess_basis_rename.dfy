/** chemistry/gamess_basis_rename.py: inverting the symbol-to-name table
    and rewriting the element names of a GAMESS basis-set file. */
module GamessBasisRename {
  import opened Py
  import opened Strs
  import opened ODict

  // ---------------------------------------------------------------------
  // Inverting the table

  /** The pairs `(v.lower(), k)` of the comprehension, in the order of
      `d.items()`. */
  function InvertedPairs(d: Dict<string, string>): (r: seq<(string, string)>)
    ensures |r| == |d|
    ensures forall i :: 0 <= i < |d| ==> r[i] == (Lower(d[i].1), d[i].0)
    decreases |d|
  {
    if |d| == 0 then [] else [(Lower(d[0].1), d[0].0)] + InvertedPairs(d[1..])
  }

  /** `invert_dict_lowercase_vals(d)`: `{v.lower(): k for (k, v) in d.items()}`. */
  function InvertDictLowercaseVals(d: Dict<string, string>): Dict<string, string>
  {
    FromPairs(InvertedPairs(d))
  }

  /** Each lowercased value maps to the key of the last pair whose value
      lowercases to it: later duplicates win. */
  lemma InvertLastWins(d: Dict<string, string>, i: nat)
    requires i < |d|
    requires forall j :: i < j < |d| ==> Lower(d[j].1) != Lower(d[i].1)
    ensures Get(InvertDictLowercaseVals(d), Lower(d[i].1)) == Some(d[i].0)
  {
    var pairs := InvertedPairs(d);
    FromPairsLastWins(pairs, i);
  }

  /** A name that no value lowercases to is not a key of the inverse. */
  lemma InvertAbsent(d: Dict<string, string>, name: string)
    requires forall j :: 0 <= j < |d| ==> Lower(d[j].1) != name
    ensures Get(InvertDictLowercaseVals(d), name) == None
  {
    FromPairsAbsent(InvertedPairs(d), name);
  }

  /** The inverse is a dictionary: its keys are distinct. */
  lemma InvertDistinct(d: Dict<string, string>)
    ensures DistinctKeys(InvertDictLowercaseVals(d))
  {
    FromPairsDistinct(InvertedPairs(d));
  }

  // ---------------------------------------------------------------------
  // Renaming the lines

  /** One pass of the inner loop, for key `k` whose value is `v`: when the
      key occurs in the line, compared in lower case, the line is
      lowercased and every occurrence of the key replaced by the value. */
  function RenameStep(line: string, k: string, v: string): string
  {
    if Contains(Lower(line), Lower(k)) then ReplaceAll(Lower(line), Lower(k), v) else line
  }

  /** The inner loop over the keys of `d` in order, each pass working on
      the line the previous passes left. For a dictionary, the pair's
      value is `mapdict.get(k)`. */
  function RenameLine(line: string, d: Dict<string, string>): string
    decreases |d|
  {
    if |d| == 0 then line else RenameLine(RenameStep(line, d[0].0, d[0].1), d[1..])
  }

  /** The `newbasfile` list: one renamed line per line of the file, in
      order. */
  function RenamedLines(basfile: seq<string>, d: Dict<string, string>): (r: seq<string>)
    ensures |r| == |basfile|
    ensures forall i :: 0 <= i < |basfile| ==> r[i] == RenameLine(basfile[i], d)
    decreases |basfile|
  {
    if |basfile| == 0 then [] else [RenameLine(basfile[0], d)] + RenamedLines(basfile[1..], d)
  }

  /** `rename_elements(basfile, mapdict)`: the nested loops, and the
      renamed lines joined with `''` (each line keeps its own newline). */
  method RenameElements(basfile: seq<string>, mapdict: Dict<string, string>) returns (r: string)
    ensures r == Join("", RenamedLines(basfile, mapdict))
  {
    var newbasfile: seq<string> := [];
    var i := 0;
    while i < |basfile|
      invariant 0 <= i <= |basfile|
      invariant newbasfile == RenamedLines(basfile[..i], mapdict)
      decreases |basfile| - i
    {
      var line := basfile[i];
      var j := 0;
      while j < |mapdict|
        invariant 0 <= j <= |mapdict|
        invariant RenameLine(line, mapdict[j..]) == RenameLine(basfile[i], mapdict)
        decreases |mapdict| - j
      {
        RenameFrom(line, mapdict, j);
        ghost var before := line;
        var k := mapdict[j].0;
        if Contains(Lower(line), Lower(k)) {
          line := ReplaceAll(Lower(line), Lower(k), mapdict[j].1);
        }
        assert line == RenameStep(before, k, mapdict[j].1);
        j := j + 1;
      }
      assert mapdict[j..] == [];
      RenamedPrefix(basfile, i, mapdict);
      newbasfile := newbasfile + [line];
      i := i + 1;
    }
    assert basfile[..i] == basfile;
    r := Join("", newbasfile);
  }

  lemma RenameFrom(line: string, d: Dict<string, string>, j: nat)
    requires j < |d|
    ensures RenameLine(line, d[j..]) == RenameLine(RenameStep(line, d[j].0, d[j].1), d[j + 1..])
  {
    assert d[j..][1..] == d[j + 1..];
  }

  lemma RenamedPrefix(basfile: seq<string>, i: nat, d: Dict<string, string>)
    requires i < |basfile|
    ensures RenamedLines(basfile[..i + 1], d) == RenamedLines(basfile[..i], d) + [RenameLine(basfile[i], d)]
  {
    assert basfile[..i + 1] == basfile[..i] + [basfile[i]];
    RenamedSnoc(basfile[..i], basfile[i], d);
  }

  lemma RenamedSnoc(lines: seq<string>, line: string, d: Dict<string, string>)
    ensures RenamedLines(lines + [line], d) == RenamedLines(lines, d) + [RenameLine(line, d)]
  {
    var a := RenamedLines(lines + [line], d);
    var b := RenamedLines(lines, d) + [RenameLine(line, d)];
    assert |a| == |b|;
    forall i | 0 <= i < |a|
      ensures a[i] == b[i]
    {
      if i < |lines| {
        assert (lines + [line])[i] == lines[i];
      }
    }
  }

  // ---------------------------------------------------------------------
  // What renaming does

  /** A line in which no key occurs, compared in lower case, is returned
      as it was (not even lowercased). */
  lemma {:induction false} RenameUnmatched(line: string, d: Dict<string, string>)
    requires forall i :: 0 <= i < |d| ==> !Contains(Lower(line), Lower(d[i].0))
    ensures RenameLine(line, d) == line
    decreases |d|
  {
    if |d| > 0 {
      assert RenameStep(line, d[0].0, d[0].1) == line;
      forall i | 0 <= i < |d[1..]|
        ensures !Contains(Lower(line), Lower(d[1..][i].0))
      {
        assert d[1..][i] == d[i + 1];
      }
      RenameUnmatched(line, d[1..]);
    }
  }

  /** The keys are applied in the dictionary's order, a later key seeing
      the line the earlier ones produced. */
  lemma {:induction false} RenameSnoc(line: string, d: Dict<string, string>, k: string, v: string)
    ensures RenameLine(line, d + [(k, v)]) == RenameStep(RenameLine(line, d), k, v)
    decreases |d|
  {
    if |d| == 0 {
      assert [(k, v)][1..] == [];
    } else {
      assert (d + [(k, v)])[1..] == d[1..] + [(k, v)];
      RenameSnoc(RenameStep(line, d[0].0, d[0].1), d[1..], k, v);
    }
  }

  /** A string with no upper-case ASCII letter. */
  predicate NoUpper(s: string)
  {
    forall i :: 0 <= i < |s| ==> !('A' <= s[i] <= 'Z')
  }

  lemma {:induction false} ReplaceNoUpper(s: string, pat: string, rep: string)
    requires NoUpper(s) && NoUpper(rep)
    ensures NoUpper(ReplaceAll(s, pat, rep))
    decreases |s|
  {
    if |pat| == 0 {
      if |s| > 0 {
        ReplaceNoUpper(s[1..], pat, rep);
      }
    } else if |s| >= |pat| {
      if s[..|pat|] == pat {
        ReplaceNoUpper(s[|pat|..], pat, rep);
      } else {
        ReplaceNoUpper(s[1..], pat, rep);
      }
    }
  }

  /** A line in which the key occurs comes back lowercased: with a value
      that has no upper-case letter, nothing upper-case is left of it. */
  lemma MatchLowercases(line: string, k: string, v: string)
    requires Contains(Lower(line), Lower(k))
    requires NoUpper(v)
    ensures NoUpper(RenameStep(line, k, v))
  {
    ReplaceNoUpper(Lower(line), Lower(k), v);
  }

  /** A line that is exactly a key, in any case, becomes its value when
      that key is applied. */
  lemma KeyLineRenamed(line: string, k: string, v: string)
    requires |k| > 0 && Lower(line) == Lower(k)
    ensures RenameStep(line, k, v) == v
  {
    assert OccursAt(Lower(line), Lower(k), 0);
    ReplaceWhole(Lower(k), v);
  }

  /** The order matters: when a key occurs inside a later key (as `tin`
      inside `platinum`), a line holding the longer name is rewritten by
      the shorter key first, and the longer key no longer matches. */
  lemma ShorterKeyCapturesLonger(pre: string, post: string, k1: string, v1: string, k2: string, v2: string)
    requires |k1| > 0 && NoUpper(k1) && NoUpper(k2)
    requires k2 == pre + k1 + post
    requires !Contains(Lower(ReplaceAll(k2, k1, v1)), k2)
    ensures RenameLine(k2, [(k1, v1), (k2, v2)]) == ReplaceAll(k2, k1, v1)
  {
    var s1 := ReplaceAll(k2, k1, v1);
    LowerNoUpper(k1);
    LowerNoUpper(k2);
    assert k2[|pre|..|pre| + |k1|] == k1;
    assert OccursAt(k2, k1, |pre|);
    assert RenameStep(k2, k1, v1) == s1;
    assert RenameStep(s1, k2, v2) == s1;
    var d := [(k1, v1), (k2, v2)];
    assert d[1..] == [(k2, v2)];
    assert RenameLine(s1, [(k2, v2)]) == RenameLine(s1, []);
  }

  lemma LowerNoUpper(s: string)
    requires NoUpper(s)
    ensures Lower(s) == s
  {
  }
}
