/** Splitting a unified diff into per-hunk left and right files
    (parse_diff_file.py). The files written are returned as a list of
    (path, content) pairs, in the order they are written. */
module ParseDiffFile {
  import opened Py
  import opened Strs
  import opened PosixPath

  /** `sanitize_filename`: every `/` becomes `_`. */
  function Sanitize(name: string): string
  {
    ReplaceAll(name, "/", "_")
  }

  /** The sanitized name has the same length, no `/`, and differs from the
      name only where the name had a `/`. */
  lemma SanitizeSpec(name: string)
    ensures |Sanitize(name)| == |name|
    ensures forall i :: 0 <= i < |name| ==> Sanitize(name)[i] == (if name[i] == '/' then '_' else name[i])
    ensures '/' !in Sanitize(name)
  {
    ReplaceCharPointwise(name, '/', '_');
  }

  /** Sanitizing twice is sanitizing once. */
  lemma SanitizeIdempotent(name: string)
    ensures Sanitize(Sanitize(name)) == Sanitize(name)
  {
    SanitizeSpec(name);
    SanitizeSpec(Sanitize(name));
  }

  /** Python's `s[k:]` for `k >= 0`. */
  function From(s: string, k: nat): (r: string)
  {
    if k <= |s| then s[k..] else ""
  }

  // ---------------------------------------------------------------------
  // The state of `main`'s loop

  /** The loop variables of `main`; a name never assigned is `None`. */
  datatype State = State(
    fileCounter: int, hunkCounter: int,
    leftRoot: Option<string>, rightRoot: Option<string>,
    leftExt: string, rightExt: string,
    leftStart: string, rightStart: string,
    left: string, right: string)

  const Init := State(-1, 0, None, None, "", "", "", "", "", "")

  datatype Written = Written(path: string, content: string)

  /** `write_hunk_to_files`: both files of the hunk, or nothing when both
      sections are empty. */
  function HunkFiles(dir: string, base: string, st: State, leftRoot: string, rightRoot: string): seq<Written>
  {
    if st.left != "" || st.right != "" then
      var stem := dir + "/" + base + "." + IntToString(st.fileCounter);
      var tail := "." + IntToString(st.hunkCounter);
      [Written(stem + ".left." + Sanitize(leftRoot) + tail + "." + st.leftStart + "." + st.leftExt, st.left),
       Written(stem + ".right." + Sanitize(rightRoot) + tail + "." + st.rightStart + "." + st.rightExt, st.right)]
    else []
  }

  /** A hunk is written exactly when one of its sections is non-empty, the
      left section first, each file holding its section. */
  lemma HunkFilesMeaning(dir: string, base: string, st: State, leftRoot: string, rightRoot: string)
    ensures |HunkFiles(dir, base, st, leftRoot, rightRoot)| == 0 <==> st.left == "" && st.right == ""
    ensures |HunkFiles(dir, base, st, leftRoot, rightRoot)| != 0 ==>
      |HunkFiles(dir, base, st, leftRoot, rightRoot)| == 2 &&
      HunkFiles(dir, base, st, leftRoot, rightRoot)[0].content == st.left &&
      HunkFiles(dir, base, st, leftRoot, rightRoot)[1].content == st.right
  {
  }

  /** The call of `write_hunk_to_files` made when `diffed_file_counter >= 0`:
      passing a file-name variable never assigned is UnboundLocalError. */
  function Flush(dir: string, base: string, st: State): Result<seq<Written>>
  {
    if st.fileCounter < 0 then Ok([])
    else if st.leftRoot.None? || st.rightRoot.None? then Err(UnboundLocalError)
    else Ok(HunkFiles(dir, base, st, st.leftRoot.value, st.rightRoot.value))
  }

  /** `left_start_line` of an `@@` line. */
  function HunkLeftStart(line: string): string
  {
    LStripChar(Split(Split(From(line, 3), ' ')[0], ',')[0], '-')
  }

  /** `right_start_line` of an `@@` line: the second piece of a string
      that was itself the first piece of a split on spaces. */
  function HunkRightStart(line: string): Result<string>
  {
    var info := Split(Split(From(line, 3), ' ')[0], ' ');
    if |info| < 2 then Err(IndexError) else Ok(LStripChar(Split(info[1], ',')[0], '+'))
  }

  /** Splitting a string without the separator gives the string alone. */
  lemma SplitAbsent(s: string, c: char)
    requires c !in s
    ensures Split(s, c) == [s]
  {
    SplitJoin([s], c);
  }

  /** Every `@@` line raises IndexError: the piece split again contains
      no space. */
  lemma HunkRightStartFails(line: string)
    ensures HunkRightStart(line) == Err(IndexError)
  {
    var pieces := Split(From(line, 3), ' ');
    SplitPiecesAvoidSeparator(From(line, 3), ' ');
    SplitAbsent(pieces[0], ' ');
  }

  /** The result of one line: the files written while handling it, then the
      next state or the exception that ends the run. */
  datatype Outcome = Outcome(written: seq<Written>, next: Result<State>)

  /** One iteration of `main`'s loop. `---` and `+++` are checked before `-`
      and `+`. */
  function Step(dir: string, base: string, st: State, line: string): Outcome
  {
    if StartsWith(line, "---") then
      match Flush(dir, base, st)
      case Err(e) => Outcome([], Err(e))
      case Ok(w) =>
        var parts := SplitExt(From(line, 4));
        Outcome(w, Ok(st.(fileCounter := st.fileCounter + 1, hunkCounter := 0, leftRoot := Some(parts.0),
                          leftExt := LStripChar(parts.1, '.'), left := "", right := "")))
    else if StartsWith(line, "+++") then
      var parts := SplitExt(From(line, 4));
      Outcome([], Ok(st.(rightRoot := Some(parts.0), rightExt := LStripChar(parts.1, '.'))))
    else if StartsWith(line, "@@") then
      match Flush(dir, base, st)
      case Err(e) => Outcome([], Err(e))
      case Ok(w) =>
        match HunkRightStart(line)
        case Err(e) => Outcome(w, Err(e))
        case Ok(rs) =>
          Outcome(w, Ok(st.(hunkCounter := st.hunkCounter + 1, leftStart := HunkLeftStart(line),
                            rightStart := rs, left := "", right := "")))
    else if StartsWith(line, "-") then Outcome([], Ok(st.(left := st.left + From(line, 1) + "\n")))
    else if StartsWith(line, "+") then Outcome([], Ok(st.(right := st.right + From(line, 1) + "\n")))
    else if StartsWith(line, "\\") then Outcome([], Ok(st))
    else Outcome([], Ok(st.(left := st.left + line + "\n", right := st.right + line + "\n")))
  }

  /** Files written before `o`'s. */
  function Then(w: seq<Written>, o: Outcome): Outcome
  {
    Outcome(w + o.written, o.next)
  }

  /** The loop over `lines` from state `st`, stopping at the first
      exception. */
  function Run(dir: string, base: string, st: State, lines: seq<string>): Outcome
    decreases |lines|
  {
    if |lines| == 0 then Outcome([], Ok(st))
    else
      var o := Step(dir, base, st, lines[0]);
      match o.next
      case Err(_) => o
      case Ok(st') => Then(o.written, Run(dir, base, st', lines[1..]))
  }

  /** `main` after its argument handling: the loop, then the last hunk. */
  function SplitDiff(dir: string, base: string, lines: seq<string>): Outcome
  {
    var o := Run(dir, base, Init, lines);
    match o.next
    case Err(_) => o
    case Ok(st) =>
      match Flush(dir, base, st)
      case Err(e) => Outcome(o.written, Err(e))
      case Ok(w) => Outcome(o.written + w, Ok(st))
  }

  /** The body of `main`'s loop for one line. */
  method HandleLine(dir: string, base: string, st: State, line: string) returns (o: Outcome)
    ensures o == Step(dir, base, st, line)
  {
    if StartsWith(line, "---") {
      var flushed := Flush(dir, base, st);
      if flushed.Err? {
        return Outcome([], Err(flushed.exc));
      }
      var parts := SplitExt(From(line, 4));
      var next := st.(fileCounter := st.fileCounter + 1, hunkCounter := 0, leftRoot := Some(parts.0),
                      leftExt := LStripChar(parts.1, '.'), left := "", right := "");
      return Outcome(flushed.value, Ok(next));
    } else if StartsWith(line, "+++") {
      var parts := SplitExt(From(line, 4));
      return Outcome([], Ok(st.(rightRoot := Some(parts.0), rightExt := LStripChar(parts.1, '.'))));
    } else if StartsWith(line, "@@") {
      var flushed := Flush(dir, base, st);
      if flushed.Err? {
        return Outcome([], Err(flushed.exc));
      }
      var leftStart := HunkLeftStart(line);
      var rightStart := HunkRightStart(line);
      if rightStart.Err? {
        return Outcome(flushed.value, Err(rightStart.exc));
      }
      var next := st.(hunkCounter := st.hunkCounter + 1, leftStart := leftStart, rightStart := rightStart.value,
                      left := "", right := "");
      return Outcome(flushed.value, Ok(next));
    } else if StartsWith(line, "-") {
      return Outcome([], Ok(st.(left := st.left + From(line, 1) + "\n")));
    } else if StartsWith(line, "+") {
      return Outcome([], Ok(st.(right := st.right + From(line, 1) + "\n")));
    } else if StartsWith(line, "\\") {
      return Outcome([], Ok(st));
    } else {
      return Outcome([], Ok(st.(left := st.left + line + "\n", right := st.right + line + "\n")));
    }
  }

  /** `main`'s loop over the lines of the diff (each without its line
      terminator), then the last hunk. */
  method SplitDiffFile(dir: string, base: string, lines: seq<string>) returns (r: Outcome)
    ensures r == SplitDiff(dir, base, lines)
  {
    var o := HandleLines(dir, base, lines);
    if o.next.Err? {
      return o;
    }
    var last := Flush(dir, base, o.next.value);
    if last.Err? {
      return Outcome(o.written, Err(last.exc));
    }
    return Outcome(o.written + last.value, o.next);
  }

  /** `main`'s loop over the lines of the diff, stopping at the first
      exception. */
  method HandleLines(dir: string, base: string, lines: seq<string>) returns (r: Outcome)
    ensures r == Run(dir, base, Init, lines)
  {
    var st := Init;
    var written: seq<Written> := [];
    var i := 0;
    assert lines[0..] == lines;
    while i < |lines|
      invariant 0 <= i <= |lines|
      invariant Run(dir, base, Init, lines) == Then(written, Run(dir, base, st, lines[i..]))
    {
      assert lines[i..][0] == lines[i] && lines[i..][1..] == lines[i + 1..];
      var o := HandleLine(dir, base, st, lines[i]);
      RunStep(dir, base, st, lines[i..]);
      if o.next.Err? {
        return Outcome(written + o.written, o.next);
      }
      written := written + o.written;
      st := o.next.value;
      i := i + 1;
    }
    return Outcome(written, Ok(st));
  }


  /** One step of the run: it ends with the first line's exception, or
      the first line's files come before the rest of the run's. */
  lemma RunStep(dir: string, base: string, st: State, lines: seq<string>)
    requires |lines| > 0
    ensures Step(dir, base, st, lines[0]).next.Err? ==> Run(dir, base, st, lines) == Step(dir, base, st, lines[0])
    ensures Step(dir, base, st, lines[0]).next.Ok? ==>
      Run(dir, base, st, lines) == Then(Step(dir, base, st, lines[0]).written, Run(dir, base, Step(dir, base, st, lines[0]).next.value, lines[1..]))
  {
  }

  // ---------------------------------------------------------------------
  // Properties of the loop

  /** A line that opens no file and no hunk. */
  predicate BodyLine(line: string)
  {
    !StartsWith(line, "---") && !StartsWith(line, "+++") && !StartsWith(line, "@@")
  }

  /** Every line is a body line. */
  predicate BodyLines(lines: seq<string>)
    decreases |lines|
  {
    |lines| == 0 || (BodyLine(lines[0]) && BodyLines(lines[1..]))
  }

  /** What a body line adds to the left section: a `-` line without its
      marker, a context line whole, a `+` or `\` line nothing. */
  function LeftPart(line: string): string
  {
    if StartsWith(line, "-") then From(line, 1) + "\n"
    else if StartsWith(line, "+") || StartsWith(line, "\\") then ""
    else line + "\n"
  }

  /** What a body line adds to the right section. */
  function RightPart(line: string): string
  {
    if StartsWith(line, "+") then From(line, 1) + "\n"
    else if StartsWith(line, "-") || StartsWith(line, "\\") then ""
    else line + "\n"
  }

  function LeftText(lines: seq<string>): string
    decreases |lines|
  {
    if |lines| == 0 then "" else LeftPart(lines[0]) + LeftText(lines[1..])
  }

  function RightText(lines: seq<string>): string
    decreases |lines|
  {
    if |lines| == 0 then "" else RightPart(lines[0]) + RightText(lines[1..])
  }

  /** Body lines write nothing and extend each section by what each line
      contributes to it, in order; nothing else in the state changes. */
  lemma {:induction false} BodyRun(dir: string, base: string, st: State, lines: seq<string>)
    requires BodyLines(lines)
    ensures Run(dir, base, st, lines) ==
      Outcome([], Ok(st.(left := st.left + LeftText(lines), right := st.right + RightText(lines))))
    decreases |lines|
  {
    if |lines| > 0 {
      var line := lines[0];
      var next := st.(left := st.left + LeftPart(line), right := st.right + RightPart(line));
      BodyStep(dir, base, st, line);
      assert Run(dir, base, st, lines) == Then([], Run(dir, base, next, lines[1..]));
      BodyRun(dir, base, next, lines[1..]);
      Assoc(st.left, LeftPart(line), LeftText(lines[1..]));
      Assoc(st.right, RightPart(line), RightText(lines[1..]));
      var fin := st.(left := st.left + LeftText(lines), right := st.right + RightText(lines));
      assert next.(left := next.left + LeftText(lines[1..]), right := next.right + RightText(lines[1..])) == fin;
      var none: seq<Written> := [];
      assert none + none == none;
      assert Then(none, Outcome(none, Ok(fin))) == Outcome(none, Ok(fin));
    } else {
      assert st.left + LeftText(lines) == st.left && st.right + RightText(lines) == st.right;
    }
  }

  lemma Assoc(a: string, b: string, c: string)
    ensures a + b + c == a + (b + c)
  {
  }

  /** One body line writes nothing and adds its parts to the sections. */
  lemma BodyStep(dir: string, base: string, st: State, line: string)
    requires BodyLine(line)
    ensures Step(dir, base, st, line) ==
      Outcome([], Ok(st.(left := st.left + LeftPart(line), right := st.right + RightPart(line))))
  {
    assert st.left + "" == st.left && st.right + "" == st.right;
    assert st.left + (From(line, 1) + "\n") == st.left + From(line, 1) + "\n";
    assert st.right + (From(line, 1) + "\n") == st.right + From(line, 1) + "\n";
    assert st.left + (line + "\n") == st.left + line + "\n";
    assert st.right + (line + "\n") == st.right + line + "\n";
  }

  /** `---` is checked before `-`: a file header starts a new file with
      empty sections instead of joining the left section. */
  lemma FileHeaderFirst(dir: string, base: string, st: State, line: string)
    requires StartsWith(line, "---")
    ensures StartsWith(line, "-")
    ensures Step(dir, base, st, line).next.Ok? ==>
      var n := Step(dir, base, st, line).next.value;
      n.fileCounter == st.fileCounter + 1 && n.hunkCounter == 0 && n.left == "" && n.right == ""
  {
  }

  /** `+++` is checked before `+`: it names the right file and leaves both
      sections as they were. */
  lemma RightHeaderFirst(dir: string, base: string, st: State, line: string)
    requires StartsWith(line, "+++")
    ensures StartsWith(line, "+")
    ensures Step(dir, base, st, line).written == []
    ensures Step(dir, base, st, line).next.Ok?
    ensures Step(dir, base, st, line).next.value.left == st.left
    ensures Step(dir, base, st, line).next.value.right == st.right
    ensures Step(dir, base, st, line).next.value.rightRoot.Some?
  {
  }

  /** Every `@@` line ends the run: after writing the pending hunk it
      raises IndexError (or UnboundLocalError when no `+++` line came
      after the first `---`). */
  lemma HunkHeaderEndsRun(dir: string, base: string, st: State, line: string)
    requires StartsWith(line, "@@")
    ensures Step(dir, base, st, line).next.Err?
    ensures Flush(dir, base, st).Ok? ==> Step(dir, base, st, line) == Outcome(Flush(dir, base, st).value, Err(IndexError))
    ensures Flush(dir, base, st).Err? ==> Step(dir, base, st, line) == Outcome([], Err(UnboundLocalError))
  {
    assert line[0] == '@';
    assert !StartsWith(line, "---") && !StartsWith(line, "+++");
    HunkRightStartFails(line);
  }

  /** The number of file headers among `lines`. */
  function FileHeaders(lines: seq<string>): nat
    decreases |lines|
  {
    if |lines| == 0 then 0 else (if StartsWith(lines[0], "---") then 1 else 0) + FileHeaders(lines[1..])
  }

  /** A run that ends normally counted one file per `---` line and never
      reached a hunk: the hunk counter and both start lines keep their
      initial values. */
  lemma {:induction false} RunCounts(dir: string, base: string, st: State, lines: seq<string>)
    requires Run(dir, base, st, lines).next.Ok?
    requires st.hunkCounter == 0 && st.leftStart == "" && st.rightStart == ""
    ensures var f := Run(dir, base, st, lines).next.value;
      f.fileCounter == st.fileCounter + FileHeaders(lines) &&
      f.hunkCounter == 0 && f.leftStart == "" && f.rightStart == ""
    decreases |lines|
  {
    if |lines| > 0 {
      if StartsWith(lines[0], "@@") {
        HunkHeaderEndsRun(dir, base, st, lines[0]);
      } else {
        var o := Step(dir, base, st, lines[0]);
        RunCounts(dir, base, o.next.value, lines[1..]);
      }
    }
  }

  /** What `main` reports on success: one file per `---` line (less the
      initial -1) and no hunk. */
  lemma SplitDiffCounts(dir: string, base: string, lines: seq<string>)
    requires SplitDiff(dir, base, lines).next.Ok?
    ensures SplitDiff(dir, base, lines).next.value.fileCounter == FileHeaders(lines) - 1
    ensures SplitDiff(dir, base, lines).next.value.hunkCounter == 0
  {
    RunCounts(dir, base, Init, lines);
  }

  /** A diff with at least one `@@` line never finishes. */
  lemma {:induction false} HunkHeaderFails(dir: string, base: string, st: State, lines: seq<string>, k: nat)
    requires k < |lines| && StartsWith(lines[k], "@@")
    ensures Run(dir, base, st, lines).next.Err?
    decreases k, 1
  {
    if k == 0 {
      FirstHunkHeaderFails(dir, base, st, lines);
    } else {
      LaterHunkHeaderFails(dir, base, st, lines, k);
    }
  }

  lemma {:induction false} LaterHunkHeaderFails(dir: string, base: string, st: State, lines: seq<string>, k: nat)
    requires 0 < k < |lines| && StartsWith(lines[k], "@@")
    ensures Run(dir, base, st, lines).next.Err?
    decreases k, 0
  {
    RunFirst(dir, base, st, lines);
    var next := Step(dir, base, st, lines[0]).next;
    if next.Ok? {
      assert lines[1..][k - 1] == lines[k];
      HunkHeaderFails(dir, base, next.value, lines[1..], k - 1);
    }
  }

  lemma FirstHunkHeaderFails(dir: string, base: string, st: State, lines: seq<string>)
    requires |lines| > 0 && StartsWith(lines[0], "@@")
    ensures Run(dir, base, st, lines).next.Err?
  {
    RunFirst(dir, base, st, lines);
    HunkHeaderEndsRun(dir, base, st, lines[0]);
  }

  /** The run stops with the first step's exception, or goes on from the
      state it leaves. */
  lemma RunFirst(dir: string, base: string, st: State, lines: seq<string>)
    requires |lines| > 0
    ensures var o := Step(dir, base, st, lines[0]);
      Run(dir, base, st, lines).next == if o.next.Err? then o.next else Run(dir, base, o.next.value, lines[1..]).next
  {
  }

  // ---------------------------------------------------------------------
  // The intended hunk-header parsing

  /** The start lines of `@@ -a,b +c,d @@`, taking the second piece of the
      split on spaces for the right side. */
  function HunkStartsFixed(line: string): Result<(string, string)>
  {
    var info := Split(From(line, 3), ' ');
    if |info| < 2 then Err(IndexError)
    else Ok((LStripChar(Split(info[0], ',')[0], '-'), LStripChar(Split(info[1], ',')[0], '+')))
  }

  /** Stripping one marker in front of a string that does not start with
      it. */
  lemma LStripMarker(c: char, a: string)
    requires |a| > 0 && a[0] != c
    ensures LStripChar([c] + a, c) == a
  {
    assert ([c] + a)[1..] == a;
  }

  /** The intended parser reads the start lines of a unified-diff hunk
      header with counts. */
  lemma HunkStartsFixedParses(a: string, b: string, c: string, d: string)
    requires |a| > 0 && AllDigits(a) && AllDigits(b) && |c| > 0 && AllDigits(c) && AllDigits(d)
    ensures HunkStartsFixed("@@ -" + a + "," + b + " +" + c + "," + d + " @@") == Ok((a, c))
  {
    HeaderPieces(a, b, c, d);
    assert "-" + a + "," + b == Join(",", ["-" + a, b]);
    assert "+" + c + "," + d == Join(",", ["+" + c, d]);
    SplitJoin(["-" + a, b], ',');
    SplitJoin(["+" + c, d], ',');
    LStripMarker('-', a);
    LStripMarker('+', c);
  }

  /** The header splits on spaces into its two ranges and the closing
      `@@`. */
  lemma HeaderPieces(a: string, b: string, c: string, d: string)
    requires AllDigits(a) && AllDigits(b) && AllDigits(c) && AllDigits(d)
    ensures Split(From("@@ -" + a + "," + b + " +" + c + "," + d + " @@", 3), ' ') == ["-" + a + "," + b, "+" + c + "," + d, "@@"]
  {
    var left := "-" + a + "," + b;
    var right := "+" + c + "," + d;
    var line := "@@ -" + a + "," + b + " +" + c + "," + d + " @@";
    assert From(line, 3) == left + " " + (right + " " + "@@");
    assert [left, right, "@@"][1..] == [right, "@@"];
    assert Join(" ", [right, "@@"]) == right + " " + "@@";
    assert From(line, 3) == Join(" ", [left, right, "@@"]);
    assert ' ' !in left && ' ' !in right && ' ' !in "@@" by {
      assert forall i :: 0 <= i < |a| ==> IsDigit(a[i]);
    }
    SplitJoin([left, right, "@@"], ' ');
  }

  /** As written, the same header raises IndexError. */
  lemma HunkStartsAsWrittenFail(a: string, b: string, c: string, d: string)
    ensures HunkRightStart("@@ -" + a + "," + b + " +" + c + "," + d + " @@") == Err(IndexError)
  {
    HunkRightStartFails("@@ -" + a + "," + b + " +" + c + "," + d + " @@");
  }
}
