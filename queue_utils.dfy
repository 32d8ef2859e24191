/** The dashed rule under a queue listing's header (frank/queue_utils.py):
    one run of `-` per column width, runs separated by single spaces. */
module QueueUtils {
  import opened Strs

  /** `'-' * n`, which is empty for a negative `n`. */
  function Dashes(n: int): (r: string)
    ensures |r| == if n < 0 then 0 else n
    ensures forall i :: 0 <= i < |r| ==> r[i] == '-'
  {
    Repeat('-', if n < 0 then 0 else n)
  }

  function DashRuns(lints: seq<int>): (r: seq<string>)
    ensures |r| == |lints|
    ensures forall k :: 0 <= k < |r| ==> r[k] == Dashes(lints[k])
  {
    seq(|lints|, k requires 0 <= k < |lints| => Dashes(lints[k]))
  }

  /** `make_spaced_dashes(lints)`. */
  function MakeSpacedDashes(lints: seq<int>): (r: string)
    ensures |lints| == 0 ==> r == ""
  {
    Join(" ", DashRuns(lints))
  }

  /** The sum of the run lengths, negative widths counting as zero. */
  function SumWidths(lints: seq<int>): nat
  {
    if |lints| == 0 then 0 else (if lints[0] < 0 then 0 else lints[0]) + SumWidths(lints[1..])
  }

  lemma {:induction false} TotalLengthOfRuns(lints: seq<int>)
    ensures TotalLength(DashRuns(lints)) == SumWidths(lints)
    decreases |lints|
  {
    if |lints| > 0 {
      assert DashRuns(lints)[1..] == DashRuns(lints[1..]);
      TotalLengthOfRuns(lints[1..]);
    }
  }

  /** The rule is as long as the widths together plus one space between
      each pair of neighbouring runs. */
  lemma SpacedDashesLength(lints: seq<int>)
    ensures |MakeSpacedDashes(lints)| == SumWidths(lints) + (if |lints| == 0 then 0 else |lints| - 1)
  {
    JoinLength(" ", DashRuns(lints));
    TotalLengthOfRuns(lints);
  }

  /** Splitting the rule at spaces gives back the runs, one per width and
      in order; a zero width gives an empty run, that is, two adjacent
      spaces. */
  lemma SpacedDashesSplit(lints: seq<int>)
    requires |lints| > 0
    ensures Split(MakeSpacedDashes(lints), ' ') == DashRuns(lints)
  {
    var runs := DashRuns(lints);
    forall k | 0 <= k < |runs| ensures ' ' !in runs[k] {
      assert forall i :: 0 <= i < |runs[k]| ==> runs[k][i] == '-';
    }
    SplitJoin(runs, ' ');
  }
}
