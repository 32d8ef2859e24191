/** The MOLECULE section of a DALTON input from the coordinate lines of an
    XYZ file (chemistry/xyz2dalton.py). The periodic table is a map from
    element symbol to atomic number. */
module Xyz2Dalton {
  import opened Py
  import opened Strs

  // ---------------------------------------------------------------------
  // The comprehensions before the loop

  /** `[line.split()[0] for line in lines if line.strip() != ""]`. */
  function AtomSymbols(lines: seq<string>): (r: seq<string>)
    ensures |r| <= |lines|
    decreases |lines|
  {
    if |lines| == 0 then []
    else if Strip(lines[0]) != "" then
      SplitWsEmptyIffBlank(lines[0]);
      [SplitWs(lines[0])[0]] + AtomSymbols(lines[1..])
    else AtomSymbols(lines[1..])
  }

  /** `[float(pt.number[symbol]) for symbol in symbols]`; a symbol missing
      from the table is KeyError. */
  function AtomNumbers(symbols: seq<string>, number: map<string, nat>): (r: Result<seq<nat>>)
    ensures r.Ok? ==> |r.value| == |symbols|
    ensures r.Err? <==> exists k :: 0 <= k < |symbols| && symbols[k] !in number
    ensures r.Err? ==> r.exc == KeyError
    decreases |symbols|
  {
    if |symbols| == 0 then Ok([])
    else if symbols[0] !in number then Err(KeyError)
    else
      match AtomNumbers(symbols[1..], number)
      case Err(e) => Err(e)
      case Ok(rest) => Ok([number[symbols[0]]] + rest)
  }

  /** On success, every symbol is in the table and the k-th number is the
      k-th symbol's atomic number. */
  lemma {:induction false} AtomNumbersLookup(symbols: seq<string>, number: map<string, nat>)
    requires AtomNumbers(symbols, number).Ok?
    ensures forall k :: 0 <= k < |symbols| ==>
      symbols[k] in number && AtomNumbers(symbols, number).value[k] == number[symbols[k]]
    decreases |symbols|
  {
    if |symbols| > 0 {
      AtomNumbersLookup(symbols[1..], number);
      forall k | 0 < k < |symbols|
        ensures AtomNumbers(symbols, number).value[k] == number[symbols[k]]
      {
        assert symbols[k] == symbols[1..][k - 1];
      }
    }
  }

  // ---------------------------------------------------------------------
  // Runs of equal atomic numbers

  /** Run-length encoding: (atomic number, length) of each maximal run of
      equal consecutive numbers, built from the left as the loop does. */
  function Runs(nums: seq<nat>): seq<(nat, nat)>
    decreases |nums|
  {
    if |nums| == 0 then []
    else
      var r := Runs(nums[..|nums| - 1]);
      var v := nums[|nums| - 1];
      if |r| > 0 && r[|r| - 1].0 == v then r[..|r| - 1] + [(v, r[|r| - 1].1 + 1)] else r + [(v, 1)]
  }

  /** The total length of the runs. */
  function Sum(runs: seq<(nat, nat)>): nat
    decreases |runs|
  {
    if |runs| == 0 then 0 else Sum(runs[..|runs| - 1]) + runs[|runs| - 1].1
  }

  /** The numbers the runs stand for. */
  function Expand(runs: seq<(nat, nat)>): seq<nat>
    decreases |runs|
  {
    if |runs| == 0 then []
    else
      var r := runs[|runs| - 1];
      Expand(runs[..|runs| - 1]) + Repeat(r.0, r.1)
  }

  /** `n` copies of `v`. */
  function Repeat(v: nat, n: nat): (r: seq<nat>)
    ensures |r| == n
  {
    if n == 0 then [] else Repeat(v, n - 1) + [v]
  }

  /** Runs are non-empty and neighbouring runs hold different numbers. */
  predicate Maximal(runs: seq<(nat, nat)>)
  {
    (forall j :: 0 <= j < |runs| ==> runs[j].1 > 0) &&
    (forall j :: 0 < j < |runs| ==> runs[j - 1].0 != runs[j].0)
  }

  /** The encoding covers every number, is empty only for no numbers and
      ends with the last number. */
  lemma {:induction false} RunsBasic(nums: seq<nat>)
    ensures Sum(Runs(nums)) == |nums|
    ensures |Runs(nums)| == 0 <==> |nums| == 0
    ensures |nums| > 0 ==> Runs(nums)[|Runs(nums)| - 1].0 == nums[|nums| - 1]
    decreases |nums|
  {
    if |nums| > 0 {
      var p := nums[..|nums| - 1];
      var v := nums[|nums| - 1];
      RunsBasic(p);
      var r := Runs(p);
      if |r| > 0 && r[|r| - 1].0 == v {
        var q := r[..|r| - 1];
        assert (q + [(v, r[|r| - 1].1 + 1)])[..|q|] == q;
      } else {
        assert (r + [(v, 1)])[..|r|] == r;
      }
    }
  }

  /** Extending the last run keeps the runs maximal. */
  lemma MaximalExtend(r: seq<(nat, nat)>, v: nat)
    requires Maximal(r) && |r| > 0 && r[|r| - 1].0 == v
    ensures Maximal(r[..|r| - 1] + [(v, r[|r| - 1].1 + 1)])
  {
    var q := r[..|r| - 1];
    var n := q + [(v, r[|r| - 1].1 + 1)];
    assert forall j :: 0 <= j < |q| ==> n[j] == r[j];
  }

  /** A new number after a different one starts a run that keeps the runs
      maximal. */
  lemma MaximalAppend(r: seq<(nat, nat)>, v: nat)
    requires Maximal(r) && (|r| == 0 || r[|r| - 1].0 != v)
    ensures Maximal(r + [(v, 1)])
  {
    var n := r + [(v, 1)];
    assert forall j :: 0 <= j < |r| ==> n[j] == r[j];
  }

  /** Runs are non-empty and neighbouring runs hold different numbers. */
  lemma {:induction false} RunsMaximal(nums: seq<nat>)
    ensures Maximal(Runs(nums))
    decreases |nums|
  {
    if |nums| > 0 {
      var p := nums[..|nums| - 1];
      var v := nums[|nums| - 1];
      RunsMaximal(p);
      var r := Runs(p);
      if |r| > 0 && r[|r| - 1].0 == v {
        MaximalExtend(r, v);
      } else {
        MaximalAppend(r, v);
      }
    }
  }

  /** Expanding one more run appends its atoms. */
  lemma ExpandSnoc(r: seq<(nat, nat)>, x: (nat, nat))
    ensures Expand(r + [x]) == Expand(r) + Repeat(x.0, x.1)
  {
    assert (r + [x])[..|r|] == r;
  }

  /** Expanding the runs after one more number appends that number. */
  lemma ExpandRunsSnoc(r: seq<(nat, nat)>, v: nat)
    ensures var n := if |r| > 0 && r[|r| - 1].0 == v then r[..|r| - 1] + [(v, r[|r| - 1].1 + 1)] else r + [(v, 1)];
      Expand(n) == Expand(r) + [v]
  {
    if |r| > 0 && r[|r| - 1].0 == v {
      var q := r[..|r| - 1];
      var last := r[|r| - 1];
      assert r == q + [last];
      ExpandSnoc(q, last);
      ExpandSnoc(q, (v, last.1 + 1));
    } else {
      ExpandSnoc(r, (v, 1));
      assert Repeat(v, 1) == [v];
    }
  }

  /** The runs expand back to the numbers. */
  lemma {:induction false} RunsExpand(nums: seq<nat>)
    ensures Expand(Runs(nums)) == nums
    decreases |nums|
  {
    if |nums| > 0 {
      var p := nums[..|nums| - 1];
      var v := nums[|nums| - 1];
      RunsExpand(p);
      ExpandRunsSnoc(Runs(p), v);
      assert nums == p + [v];
    }
  }

  /** The numbers that differ from their predecessor. */
  function Changes(nums: seq<nat>): nat
    decreases |nums|
  {
    if |nums| < 2 then 0
    else Changes(nums[..|nums| - 1]) + (if nums[|nums| - 2] != nums[|nums| - 1] then 1 else 0)
  }

  /** There is one run more than there are changes of number, so a number
      that comes back after another one starts a new run. */
  lemma {:induction false} RunsCount(nums: seq<nat>)
    requires |nums| > 0
    ensures |Runs(nums)| == Changes(nums) + 1
    decreases |nums|
  {
    var p := nums[..|nums| - 1];
    if |nums| == 1 {
      assert p == [];
    } else {
      RunsCount(p);
      RunsBasic(p);
      var r := Runs(p);
      assert r[|r| - 1].0 == nums[|nums| - 2];
      assert Changes(nums) == Changes(p) + (if nums[|nums| - 2] != nums[|nums| - 1] then 1 else 0);
      if nums[|nums| - 2] == nums[|nums| - 1] {
        assert |Runs(nums)| == |r|;
      } else {
        assert |Runs(nums)| == |r| + 1;
      }
    }
  }

  // ---------------------------------------------------------------------
  // The output

  /** `Charge={charge} Atoms={count}`, where the charge is the float of the
      atomic number, or the initial `""` before any atom. */
  function Header(charge: Option<nat>, count: nat): string
  {
    "Charge=" + (if charge.Some? then NatToString(charge.value) + ".0" else "") + " Atoms=" + NatToString(count)
  }

  function MolHeader(atomtypes: nat, totalCharge: int): string
  {
    "Atomtypes=" + NatToString(atomtypes) + " Angstrom Charge=" + IntToString(totalCharge) + " Nosymmetry"
  }

  /** Each run's header followed by the lines paired with its atoms. */
  function Layout(runs: seq<(nat, nat)>, lines: seq<string>): (r: seq<string>)
    requires Sum(runs) <= |lines|
    ensures |r| == Sum(runs) + |runs|
    decreases |runs|
  {
    if |runs| == 0 then []
    else
      var p := runs[..|runs| - 1];
      var last := runs[|runs| - 1];
      Layout(p, lines) + [Header(Some(last.0), last.1)] + lines[Sum(p)..Sum(p) + last.1]
  }

  /** The lines of the section for the paired numbers and lines. */
  function OutputLines(nums: seq<nat>, lines: seq<string>, totalCharge: int): seq<string>
    requires |nums| <= |lines|
  {
    RunsBasic(nums);
    if |nums| == 0 then [MolHeader(1, totalCharge), Header(None, 0)]
    else [MolHeader(|Runs(nums)|, totalCharge)] + Layout(Runs(nums), lines)
  }

  /** `xyz2dalton_from_splitlines` as a value. */
  function FromSplitlines(lines: seq<string>, number: map<string, nat>, totalCharge: int): Result<string>
  {
    match AtomNumbers(AtomSymbols(lines), number)
    case Err(e) => Err(e)
    case Ok(nums) => Ok(Join("\n", OutputLines(nums, lines, totalCharge)))
  }

  /** The section has one line per atom, one header per run and the
      molecule header, which counts the runs: one more than the changes of
      atomic number. */
  lemma OutputShape(nums: seq<nat>, lines: seq<string>, totalCharge: int)
    requires 0 < |nums| <= |lines|
    ensures |OutputLines(nums, lines, totalCharge)| == |nums| + |Runs(nums)| + 1
    ensures |Runs(nums)| == Changes(nums) + 1
    ensures OutputLines(nums, lines, totalCharge)[0] == MolHeader(Changes(nums) + 1, totalCharge)
  {
    RunsBasic(nums);
    RunsCount(nums);
  }

  /** Only the first `Sum(runs)` lines are used by the layout. */
  lemma {:induction false} LayoutPrefix(runs: seq<(nat, nat)>, lines: seq<string>, more: seq<string>)
    requires Sum(runs) <= |lines|
    ensures Layout(runs, lines + more) == Layout(runs, lines)
    decreases |runs|
  {
    if |runs| > 0 {
      var p := runs[..|runs| - 1];
      var last := runs[|runs| - 1];
      LayoutPrefix(p, lines, more);
      assert (lines + more)[Sum(p)..Sum(p) + last.1] == lines[Sum(p)..Sum(p) + last.1];
    }
  }

  /** Every non-blank line yields a symbol. */
  lemma {:induction false} AtomSymbolsNoBlank(lines: seq<string>)
    requires forall k :: 0 <= k < |lines| ==> Strip(lines[k]) != ""
    ensures |AtomSymbols(lines)| == |lines|
    decreases |lines|
  {
    if |lines| > 0 {
      AtomSymbolsNoBlank(lines[1..]);
    }
  }

  /** Blank lines yield no symbol. */
  lemma {:induction false} AtomSymbolsSkipBlanks(body: seq<string>, blanks: seq<string>)
    requires forall k :: 0 <= k < |blanks| ==> Strip(blanks[k]) == ""
    ensures AtomSymbols(body + blanks) == AtomSymbols(body)
    decreases |body| + |blanks|
  {
    if |body| > 0 {
      AtomSymbolsSkipBlanks(body[1..], blanks);
      assert (body + blanks)[1..] == body[1..] + blanks;
    } else if |blanks| > 0 {
      AtomSymbolsSkipBlanks(body, blanks[1..]);
      assert body + blanks == blanks;
      assert (body + blanks)[1..] == body + blanks[1..];
    }
  }

  /** A blank line anywhere yields fewer symbols than lines. */
  lemma {:induction false} AtomSymbolsBlank(lines: seq<string>, k: nat)
    requires k < |lines| && Strip(lines[k]) == ""
    ensures |AtomSymbols(lines)| < |lines|
    decreases |lines|
  {
    if k > 0 {
      AtomSymbolsBlank(lines[1..], k - 1);
    }
  }

  /** Blank lines after the atoms change nothing: the section is the one
      of the atom lines alone. */
  lemma TrailingBlanks(body: seq<string>, blanks: seq<string>, number: map<string, nat>, totalCharge: int)
    requires forall k :: 0 <= k < |body| ==> Strip(body[k]) != ""
    requires forall k :: 0 <= k < |blanks| ==> Strip(blanks[k]) == ""
    ensures FromSplitlines(body + blanks, number, totalCharge) == FromSplitlines(body, number, totalCharge)
  {
    AtomSymbolsSkipBlanks(body, blanks);
    AtomSymbolsNoBlank(body);
    var r := AtomNumbers(AtomSymbols(body), number);
    if r.Ok? {
      var nums := r.value;
      if |nums| > 0 {
        RunsBasic(nums);
        LayoutPrefix(Runs(nums), body, blanks);
      }
    }
  }

  /** The atomic numbers, which skip blank lines, are zipped with all the
      lines: with a blank line anywhere the last line is never paired, and
      a blank line among the atoms shifts every later line onto the
      previous atom. */
  lemma BlankLineShift(lines: seq<string>, number: map<string, nat>, totalCharge: int, k: nat)
    requires k < |lines| && Strip(lines[k]) == ""
    requires AtomNumbers(AtomSymbols(lines), number).Ok?
    ensures var nums := AtomNumbers(AtomSymbols(lines), number).value;
      |nums| < |lines| &&
      OutputLines(nums, lines, totalCharge) == OutputLines(nums, lines[..|nums|], totalCharge)
  {
    AtomSymbolsBlank(lines, k);
    var nums := AtomNumbers(AtomSymbols(lines), number).value;
    if |nums| > 0 {
      RunsBasic(nums);
      assert lines == lines[..|nums|] + lines[|nums|..];
      LayoutPrefix(Runs(nums), lines[..|nums|], lines[|nums|..]);
    }
  }

  // ---------------------------------------------------------------------
  // The loop

  /** `outfilelines.insert(k, x)`. */
  function InsertAt(s: seq<string>, k: nat, x: string): seq<string>
    requires k <= |s|
  {
    s[..k] + [x] + s[k..]
  }

  /** The loop state once the runs `closed` and then `count` atoms of
      number `v` have been seen: the last run is still open, its lines
      present but its header not yet inserted. */
  predicate OpenRun(closed: seq<(nat, nat)>, v: nat, count: nat, lines: seq<string>, out: seq<string>, prev: Option<nat>, atomtypes: nat)
    requires Sum(closed) + count <= |lines|
  {
    prev == Some(v) && atomtypes == |closed| &&
    out == Layout(closed, lines) + lines[Sum(closed)..Sum(closed) + count]
  }

  /** How the runs grow by one number. */
  lemma RunsSnoc(nums: seq<nat>, i: nat)
    requires i < |nums|
    ensures var r := Runs(nums[..i]);
      Runs(nums[..i + 1]) ==
        if |r| > 0 && r[|r| - 1].0 == nums[i] then r[..|r| - 1] + [(nums[i], r[|r| - 1].1 + 1)] else r + [(nums[i], 1)]
  {
    assert nums[..i + 1][..i] == nums[..i];
  }

  /** The runs of the first number alone. */
  lemma RunsOne(nums: seq<nat>)
    requires |nums| > 0
    ensures Runs(nums[..1]) == [(nums[0], 1)]
  {
    assert nums[..1][..0] == [];
  }

  /** One more number, seen from the open-run view of the runs. */
  lemma RunsStep(nums: seq<nat>, i: nat, closed: seq<(nat, nat)>, v: nat, count: nat)
    requires i < |nums|
    requires Runs(nums[..i]) == closed + [(v, count)]
    ensures nums[i] != v ==> Runs(nums[..i + 1]) == (closed + [(v, count)]) + [(nums[i], 1)]
    ensures nums[i] == v ==> Runs(nums[..i + 1]) == closed + [(v, count + 1)]
  {
    RunsSnoc(nums, i);
    var r := closed + [(v, count)];
    assert r[..|r| - 1] == closed;
  }

  /** Adding a run to the layout adds its header and its lines. */
  lemma LayoutSnoc(closed: seq<(nat, nat)>, v: nat, count: nat, lines: seq<string>)
    requires Sum(closed) + count <= |lines|
    ensures Sum(closed + [(v, count)]) == Sum(closed) + count
    ensures Layout(closed + [(v, count)], lines) ==
      Layout(closed, lines) + [Header(Some(v), count)] + lines[Sum(closed)..Sum(closed) + count]
  {
    var runs := closed + [(v, count)];
    assert runs[..|runs| - 1] == closed;
  }

  /** Closing the open run: its header goes before its lines. */
  lemma CloseRun(closed: seq<(nat, nat)>, v: nat, count: nat, lines: seq<string>, out: seq<string>, prev: Option<nat>, atomtypes: nat)
    requires Sum(closed) + count <= |lines|
    requires OpenRun(closed, v, count, lines, out, prev, atomtypes)
    ensures |out| >= count
    ensures Sum(closed + [(v, count)]) == Sum(closed) + count
    ensures InsertAt(out, |out| - count, Header(prev, count)) == Layout(closed + [(v, count)], lines)
  {
    LayoutSnoc(closed, v, count, lines);
    assert |out| - count == |Layout(closed, lines)|;
    assert out[..|out| - count] == Layout(closed, lines);
    assert out[|out| - count..] == lines[Sum(closed)..Sum(closed) + count];
  }

  /** An atom with a new number closes the open run and opens another. */
  lemma OpenNew(closed: seq<(nat, nat)>, v: nat, count: nat, lines: seq<string>, out: seq<string>, prev: Option<nat>, atomtypes: nat, w: nat)
    requires Sum(closed) + count < |lines|
    requires OpenRun(closed, v, count, lines, out, prev, atomtypes)
    ensures |out| >= count
    ensures Sum(closed + [(v, count)]) == Sum(closed) + count
    ensures OpenRun(closed + [(v, count)], w, 1, lines,
      InsertAt(out, |out| - count, Header(prev, count)) + [lines[Sum(closed) + count]], Some(w), atomtypes + 1)
  {
    CloseRun(closed, v, count, lines, out, prev, atomtypes);
    var k := Sum(closed) + count;
    assert lines[k..k + 1] == [lines[k]];
  }

  /** An atom with the same number extends the open run. */
  lemma OpenSame(closed: seq<(nat, nat)>, v: nat, count: nat, lines: seq<string>, out: seq<string>, prev: Option<nat>, atomtypes: nat)
    requires Sum(closed) + count < |lines|
    requires OpenRun(closed, v, count, lines, out, prev, atomtypes)
    ensures OpenRun(closed, v, count + 1, lines, out + [lines[Sum(closed) + count]], prev, atomtypes)
  {
    var k := Sum(closed);
    assert lines[k..k + count] + [lines[k + count]] == lines[k..k + count + 1];
  }

  /** The loop state after the first `i > 0` atoms: their runs are
      `closed` followed by the open run of `count` atoms of number `v`. */
  predicate Seen(nums: seq<nat>, lines: seq<string>, i: nat, closed: seq<(nat, nat)>, v: nat, count: nat, out: seq<string>, prev: Option<nat>, atomtypes: nat)
    requires i <= |nums| <= |lines|
  {
    Runs(nums[..i]) == closed + [(v, count)] && Sum(closed) + count == i &&
    OpenRun(closed, v, count, lines, out, prev, atomtypes)
  }

  /** The first atom opens the first run. */
  lemma SeenFirst(nums: seq<nat>, lines: seq<string>)
    requires 0 < |nums| <= |lines|
    ensures Seen(nums, lines, 1, [], nums[0], 1, [lines[0]], Some(nums[0]), 0)
  {
    RunsOne(nums);
    assert lines[0..1] == [lines[0]];
  }

  /** An atom whose number differs from the previous one. */
  lemma SeenNew(nums: seq<nat>, lines: seq<string>, i: nat, closed: seq<(nat, nat)>, v: nat, count: nat, out: seq<string>, prev: Option<nat>, atomtypes: nat)
    requires 0 < i < |nums| <= |lines|
    requires Seen(nums, lines, i, closed, v, count, out, prev, atomtypes)
    requires Some(nums[i]) != prev
    ensures |out| >= count
    ensures Seen(nums, lines, i + 1, closed + [(v, count)], nums[i], 1,
      InsertAt(out, |out| - count, Header(prev, count)) + [lines[i]], Some(nums[i]), atomtypes + 1)
  {
    RunsStep(nums, i, closed, v, count);
    OpenNew(closed, v, count, lines, out, prev, atomtypes, nums[i]);
  }

  /** An atom with the same number as the previous one. */
  lemma SeenSame(nums: seq<nat>, lines: seq<string>, i: nat, closed: seq<(nat, nat)>, v: nat, count: nat, out: seq<string>, prev: Option<nat>, atomtypes: nat)
    requires 0 < i < |nums| <= |lines|
    requires Seen(nums, lines, i, closed, v, count, out, prev, atomtypes)
    requires Some(nums[i]) == prev
    ensures Seen(nums, lines, i + 1, closed, v, count + 1, out + [lines[i]], prev, atomtypes)
  {
    RunsStep(nums, i, closed, v, count);
    OpenSame(closed, v, count, lines, out, prev, atomtypes);
  }

  /** One pass of the loop of `xyz2dalton_from_splitlines`: a new number
      inserts the header of the run it closes; the line is appended. */
  method Advance(nums: seq<nat>, lines: seq<string>, i: nat, out: seq<string>, count: nat, prev: Option<nat>, atomtypes: nat,
                 ghost closed: seq<(nat, nat)>, ghost v: nat)
    returns (out': seq<string>, count': nat, prev': Option<nat>, atomtypes': nat, ghost closed': seq<(nat, nat)>, ghost v': nat)
    requires i < |nums| <= |lines|
    requires i == 0 ==> out == [] && count == 0 && prev == None && atomtypes == 0 && closed == []
    requires i > 0 ==> Seen(nums, lines, i, closed, v, count, out, prev, atomtypes)
    ensures Seen(nums, lines, i + 1, closed', v', count', out', prev', atomtypes')
  {
    var newcharge := nums[i];
    if i == 0 {
      SeenFirst(nums, lines);
      out', count', prev', atomtypes', closed', v' := [lines[0]], 1, Some(newcharge), 0, [], newcharge;
    } else if Some(newcharge) != prev {
      SeenNew(nums, lines, i, closed, v, count, out, prev, atomtypes);
      out' := InsertAt(out, |out| - count, Header(prev, count)) + [lines[i]];
      count', prev', atomtypes', closed', v' := 1, Some(newcharge), atomtypes + 1, closed + [(v, count)], newcharge;
    } else {
      SeenSame(nums, lines, i, closed, v, count, out, prev, atomtypes);
      out', count', prev', atomtypes', closed', v' := out + [lines[i]], count + 1, prev, atomtypes, closed, v;
    }
  }

  /** The loop of `xyz2dalton_from_splitlines` over the atoms, each paired
      with the line at the same position. */
  method GroupAtoms(nums: seq<nat>, lines: seq<string>)
    returns (out: seq<string>, count: nat, prev: Option<nat>, atomtypes: nat, ghost closed: seq<(nat, nat)>, ghost v: nat)
    requires |nums| <= |lines|
    ensures |nums| == 0 ==> out == [] && count == 0 && prev == None && atomtypes == 0
    ensures |nums| > 0 ==> Seen(nums, lines, |nums|, closed, v, count, out, prev, atomtypes)
  {
    out, atomtypes, prev, count := [], 0, None, 0;
    closed, v := [], 0;
    var i := 0;
    while i < |nums|
      invariant 0 <= i <= |nums|
      invariant i == 0 ==> out == [] && count == 0 && prev == None && atomtypes == 0 && closed == []
      invariant i > 0 ==> Seen(nums, lines, i, closed, v, count, out, prev, atomtypes)
    {
      out, count, prev, atomtypes, closed, v := Advance(nums, lines, i, out, count, prev, atomtypes, closed, v);
      i := i + 1;
    }
  }

  /** With no atoms the loop leaves nothing, and the two inserted headers
      (no charge, zero atoms; one atom type) are the whole section. */
  lemma FinishEmpty(nums: seq<nat>, lines: seq<string>, totalCharge: int,
                    out: seq<string>, count: nat, prev: Option<nat>, atomtypes: nat)
    requires |nums| == 0
    requires out == [] && count == 0 && prev == None && atomtypes == 0
    ensures InsertAt(InsertAt(out, |out| - count, Header(prev, count)), 0, MolHeader(atomtypes + 1, totalCharge)) ==
      OutputLines(nums, lines, totalCharge)
  {
    var h := Header(None, 0);
    var m := MolHeader(1, totalCharge);
    assert OutputLines(nums, lines, totalCharge) == [m, h];
    assert Header(prev, count) == h;
    assert MolHeader(atomtypes + 1, totalCharge) == m;
    assert InsertAt(out, 0, h) == [h];
    assert InsertAt([h], 0, m) == [m, h];
  }

  /** Inserting the last run's header and then the molecule header into
      what the grouping loop leaves gives the whole section. */
  lemma FinishRuns(nums: seq<nat>, lines: seq<string>, totalCharge: int,
                   out: seq<string>, count: nat, prev: Option<nat>, atomtypes: nat, closed: seq<(nat, nat)>, v: nat)
    requires 0 < |nums| <= |lines|
    requires Seen(nums, lines, |nums|, closed, v, count, out, prev, atomtypes)
    ensures |out| >= count
    ensures InsertAt(InsertAt(out, |out| - count, Header(prev, count)), 0, MolHeader(atomtypes + 1, totalCharge)) ==
      OutputLines(nums, lines, totalCharge)
  {
    assert nums[..|nums|] == nums;
    CloseRun(closed, v, count, lines, out, prev, atomtypes);
    var laid := InsertAt(out, |out| - count, Header(prev, count));
    var m := MolHeader(atomtypes + 1, totalCharge);
    assert laid == Layout(Runs(nums), lines);
    assert InsertAt(laid, 0, m) == [m] + laid;
  }

  /** `xyz2dalton_from_splitlines(lines, totalcharge)`. */
  method Xyz2DaltonFromSplitlines(lines: seq<string>, number: map<string, nat>, totalCharge: int) returns (r: Result<string>)
    ensures r == FromSplitlines(lines, number, totalCharge)
  {
    var symbols := AtomSymbols(lines);
    var numbers := AtomNumbers(symbols, number);
    if numbers.Err? {
      return Err(numbers.exc);
    }
    var nums := numbers.value;
    var out, count, prev, atomtypes;
    ghost var closed, v;
    out, count, prev, atomtypes, closed, v := GroupAtoms(nums, lines);
    if |nums| == 0 {
      FinishEmpty(nums, lines, totalCharge, out, count, prev, atomtypes);
    } else {
      FinishRuns(nums, lines, totalCharge, out, count, prev, atomtypes, closed, v);
    }
    out := InsertAt(out, |out| - count, Header(prev, count));
    atomtypes := atomtypes + 1;
    out := InsertAt(out, 0, MolHeader(atomtypes, totalCharge));
    assert FromSplitlines(lines, number, totalCharge) == Ok(Join("\n", OutputLines(nums, lines, totalCharge)));
    return Ok(Join("\n", out));
  }
}
