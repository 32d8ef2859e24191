/** Zero padding of orbital numbers and the index numbering of the VMD
    scripts written for pairs of orbitals (vmd_templates.py). */
module VmdTemplates {
  import opened Py
  import opened Strs

  /** `pad_left_zeros(num, maxwidth)`: `str(num)` with `'0'` characters
      prepended until it is `maxwidth` long. For a negative number the
      zeros go in front of the minus sign. */
  function PadLeftZeros(num: int, maxwidth: int): (r: string)
    ensures |r| == if |IntToString(num)| < maxwidth then maxwidth else |IntToString(num)|
    ensures |r| >= |IntToString(num)| && r[|r| - |IntToString(num)|..] == IntToString(num)
    ensures forall i :: 0 <= i < |r| - |IntToString(num)| ==> r[i] == '0'
    ensures |IntToString(num)| >= maxwidth ==> r == IntToString(num)
  {
    var s := IntToString(num);
    if |s| < maxwidth then Repeat('0', maxwidth - |s|) + s else s
  }

  /** Leading zeros do not change the value of a string of digits. */
  lemma {:induction false} DigitsValueLeadingZeros(z: nat, d: string)
    requires AllDigits(d)
    ensures AllDigits(Repeat('0', z) + d)
    ensures DigitsValue(Repeat('0', z) + d) == DigitsValue(d)
    decreases |d|
  {
    var s := Repeat('0', z) + d;
    if |d| == 0 {
      assert s == Repeat('0', z);
      ZerosValue(z);
    } else {
      var d' := d[..|d| - 1];
      assert s[..|s| - 1] == Repeat('0', z) + d';
      DigitsValueLeadingZeros(z, d');
    }
  }

  lemma {:induction false} ZerosValue(z: nat)
    ensures DigitsValue(Repeat('0', z)) == 0
    decreases z
  {
    if z > 0 {
      assert Repeat('0', z)[..z - 1] == Repeat('0', z - 1);
      ZerosValue(z - 1);
    }
  }

  /** Padding is undone by `int()` for a non-negative number; for a
      negative one the zeros land before the sign and the text no longer
      parses. */
  lemma PadLeftZerosParses(num: int, maxwidth: int)
    ensures num >= 0 ==> ParseInt(PadLeftZeros(num, maxwidth)) == Ok(num)
    ensures num < 0 && maxwidth > |IntToString(num)| ==> ParseInt(PadLeftZeros(num, maxwidth)) == Err(ValueError)
  {
    var s := IntToString(num);
    var r := PadLeftZeros(num, maxwidth);
    if num >= 0 {
      if |s| < maxwidth {
        DigitsValueLeadingZeros(maxwidth - |s|, s);
        ParseIntOfDigits(r);
        DigitsValueOfNatToString(num);
      } else {
        ParseIntOfIntToString(num);
      }
    } else if maxwidth > |s| {
      assert r[0] == '0' && r[|r| - |s|] == '-';
      assert !IsSpace(r[0]) && !IsSpace(r[|r| - 1]);
      assert LStrip(r) == r && RStrip(r) == r;
      assert !IsDigit(r[|r| - |s|]);
    }
  }

  /** `len(str(num))` for each number of the list. */
  function Widths(nums: seq<int>): (ws: seq<nat>)
    ensures |ws| == |nums|
  {
    seq(|nums|, i requires 0 <= i < |nums| => |IntToString(nums[i])|)
  }

  /** The largest of `ws`, 0 for none. */
  function MaxOf(ws: seq<nat>): nat
  {
    if |ws| == 0 then 0
    else
      var m := MaxOf(ws[..|ws| - 1]);
      if ws[|ws| - 1] > m then ws[|ws| - 1] else m
  }

  /** `MaxOf` is the largest entry: no entry exceeds it, some entry (if
      any) equals it, and it is 0 for no entries. */
  lemma {:induction false} MaxOfMeaning(ws: seq<nat>)
    ensures forall i :: 0 <= i < |ws| ==> ws[i] <= MaxOf(ws)
    ensures |ws| == 0 ==> MaxOf(ws) == 0
    ensures |ws| > 0 ==> exists i :: 0 <= i < |ws| && ws[i] == MaxOf(ws)
    decreases |ws|
  {
    if |ws| > 0 {
      var front := ws[..|ws| - 1];
      MaxOfMeaning(front);
      forall i | 0 <= i < |ws| ensures ws[i] <= MaxOf(ws) {
        if i < |front| {
          assert ws[i] == front[i];
        }
      }
      if ws[|ws| - 1] <= MaxOf(front) && |front| > 0 {
        var j :| 0 <= j < |front| && front[j] == MaxOf(front);
        assert ws[j] == front[j];
      }
    }
  }

  /** The widest `str(num)` in the list, 0 for an empty list. */
  function MaxLen(nums: seq<int>): nat
  {
    MaxOf(Widths(nums))
  }

  /** No `str(num)` of the list is longer than `MaxLen`, one of them (if
      any) is exactly that long, and it is 0 for an empty list. */
  lemma {:induction false} MaxLenMeaning(nums: seq<int>)
    ensures forall i :: 0 <= i < |nums| ==> |IntToString(nums[i])| <= MaxLen(nums)
    ensures |nums| == 0 ==> MaxLen(nums) == 0
    ensures |nums| > 0 ==> exists i :: 0 <= i < |nums| && |IntToString(nums[i])| == MaxLen(nums)
  {
    var ws := Widths(nums);
    MaxOfMeaning(ws);
    forall i | 0 <= i < |nums| ensures |IntToString(nums[i])| <= MaxLen(nums) {
      assert ws[i] == |IntToString(nums[i])|;
    }
    if |nums| > 0 {
      var j :| 0 <= j < |ws| && ws[j] == MaxOf(ws);
      assert |IntToString(nums[j])| == MaxLen(nums);
    }
  }

  lemma {:induction false} MaxOfStep(ws: seq<nat>, i: nat)
    requires i < |ws|
    ensures MaxOf(ws[..i + 1]) == if ws[i] > MaxOf(ws[..i]) then ws[i] else MaxOf(ws[..i])
  {
    assert ws[..i + 1][..i] == ws[..i];
  }

  /** The first loop of `pad_left_zeros_l`: the widest `str(num)`. */
  method WidestLength(numlist: seq<int>) returns (maxlen: nat)
    ensures maxlen == MaxLen(numlist)
  {
    ghost var ws := Widths(numlist);
    maxlen := 0;
    var i := 0;
    while i < |numlist|
      invariant 0 <= i <= |numlist|
      invariant maxlen == MaxOf(ws[..i])
    {
      var newlen := |IntToString(numlist[i])|;
      assert newlen == ws[i];
      if newlen > maxlen {
        maxlen := newlen;
      }
      MaxOfStep(ws, i);
      i := i + 1;
    }
    assert ws[..|numlist|] == ws;
  }

  /** `pad_left_zeros_l(numlist)`: finds the widest number, then pads
      every number to that width. */
  method PadLeftZerosList(numlist: seq<int>) returns (newnumlist: seq<string>)
    ensures |newnumlist| == |numlist|
    ensures forall i :: 0 <= i < |numlist| ==> newnumlist[i] == PadLeftZeros(numlist[i], MaxLen(numlist))
  {
    var maxlen := WidestLength(numlist);
    newnumlist := [];
    var i := 0;
    while i < |numlist|
      invariant 0 <= i <= |numlist|
      invariant |newnumlist| == i
      invariant PaddedUpTo(newnumlist, numlist, maxlen)
    {
      PaddedUpToStep(newnumlist, numlist, maxlen);
      newnumlist := newnumlist + [PadLeftZeros(numlist[i], maxlen)];
      i := i + 1;
    }
  }

  /** The first `|out|` numbers of `numlist`, each padded to `width`. */
  predicate PaddedUpTo(out: seq<string>, numlist: seq<int>, width: int)
  {
    |out| <= |numlist| && forall j :: 0 <= j < |out| ==> out[j] == PadLeftZeros(numlist[j], width)
  }

  lemma PaddedUpToStep(out: seq<string>, numlist: seq<int>, width: int)
    requires PaddedUpTo(out, numlist, width) && |out| < |numlist|
    ensures PaddedUpTo(out + [PadLeftZeros(numlist[|out|], width)], numlist, width)
  {
  }

  /** Every padded item has the width of the widest number, and still
      ends with the number's own text. */
  lemma PaddedToCommonWidth(numlist: seq<int>, i: nat)
    requires i < |numlist|
    ensures |PadLeftZeros(numlist[i], MaxLen(numlist))| == MaxLen(numlist)
  {
    MaxLenMeaning(numlist);
    assert |IntToString(numlist[i])| <= MaxLen(numlist);
  }

  /** What one pass of `vmd_covp_write_files` uses for a pair of orbitals:
      both orbital numbers padded to the width, and the pair's two VMD
      molecule indices. */
  datatype CovpRow = CovpRow(mo1: string, mo2: string, vmd1: int, vmd2: int)

  /** The loop of `vmd_covp_write_files` over the orbital pairs. */
  method CovpRows(moPairs: seq<(int, int)>, width: int) returns (rows: seq<CovpRow>)
    ensures |rows| == |moPairs|
    ensures forall idx :: 0 <= idx < |rows| ==>
      rows[idx] == CovpRow(PadLeftZeros(moPairs[idx].0, width), PadLeftZeros(moPairs[idx].1, width), 2 * idx, 2 * idx + 1)
    ensures forall i, j :: 0 <= i < j < |rows| ==> rows[i].vmd2 < rows[j].vmd1
    ensures forall v :: v in VmdUsed(rows) <==> 0 <= v < 2 * |moPairs|
  {
    rows := [];
    var idx := 0;
    while idx < |moPairs|
      invariant 0 <= idx <= |moPairs| && |rows| == idx
      invariant forall j :: 0 <= j < idx ==>
        rows[j] == CovpRow(PadLeftZeros(moPairs[j].0, width), PadLeftZeros(moPairs[j].1, width), 2 * j, 2 * j + 1)
    {
      var vmdidx1 := 2 * idx;
      var vmdidx2 := vmdidx1 + 1;
      rows := rows + [CovpRow(PadLeftZeros(moPairs[idx].0, width), PadLeftZeros(moPairs[idx].1, width), vmdidx1, vmdidx2)];
      idx := idx + 1;
    }
    CovpIndicesPartition(rows);
  }

  /** The VMD molecule indices the rows use. */
  function VmdUsed(rows: seq<CovpRow>): set<int>
  {
    (set r | r in rows :: r.vmd1) + (set r | r in rows :: r.vmd2)
  }

  /** Each pair's VMD indices are its own: row `idx` owns `2*idx` and
      `2*idx + 1`, so the indices of different rows never coincide and the
      `n` rows together use exactly `0 .. 2n-1`. */
  lemma CovpIndicesPartition(rows: seq<CovpRow>)
    requires forall idx :: 0 <= idx < |rows| ==> rows[idx].vmd1 == 2 * idx && rows[idx].vmd2 == 2 * idx + 1
    ensures forall i :: 0 <= i < |rows| ==> rows[i].vmd1 < rows[i].vmd2
    ensures forall i, j :: 0 <= i < j < |rows| ==> rows[i].vmd2 < rows[j].vmd1
    ensures forall v :: v in VmdUsed(rows) <==> 0 <= v < 2 * |rows|
  {
    var used := VmdUsed(rows);
    forall v | 0 <= v < 2 * |rows| ensures v in used {
      var r := rows[v / 2];
      assert r in rows;
      if v % 2 == 0 { assert v == r.vmd1; } else { assert v == r.vmd2; }
    }
    forall v | v in used ensures 0 <= v < 2 * |rows| {
      var r :| r in rows && (v == r.vmd1 || v == r.vmd2);
      var idx :| 0 <= idx < |rows| && rows[idx] == r;
    }
  }
}
