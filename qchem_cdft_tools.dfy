/** `parse_cdft_block` of chemistry/qchem_cdft_tools.py: reading the
    constraint values and the charge constraints of the `$cdft` block of a
    Q-Chem output, given as its lines. */
module QChemCdftTools {
  import opened Py
  import opened Strs

  /** A charge constraint line: coefficient, first atom, last atom. */
  type Constraint = seq<int>

  /** What the parse has gathered so far: the constraint values, the
      closed groups and the group being filled. */
  datatype St = St(values: seq<int>, all: seq<seq<Constraint>>, cur: seq<Constraint>)

  const Init := St([], [], [])

  predicate IsCdft(line: string)
  {
    Lower(Strip(line)) == "$cdft"
  }

  predicate IsEnd(line: string)
  {
    Lower(Strip(line)) == "$end"
  }

  /** `[int(x) for x in line.split()]`. */
  function Tokens(line: string): Result<seq<int>>
  {
    ParseAll(SplitWs(line))
  }

  /** A line inside the block as the loop sees it: the closing `$end`,
      a line whose tokens are all integers, or a line on which `int()`
      fails. */
  datatype Kind = EndLine | Toks(toks: seq<int>) | Bad(exc: Exc)

  function Lex(line: string): (r: Kind)
    ensures r.EndLine? <==> IsEnd(line)
    ensures r.Bad? ==> r.exc == ValueError
  {
    if IsEnd(line) then EndLine
    else
      match Tokens(line)
      case Err(e) => Bad(e)
      case Ok(t) => Toks(t)
  }

  /** The kind of each line after `$cdft`, in file order: what the
      parsing loop sees one line at a time. */
  function LineKinds(lines: seq<string>): (r: seq<Kind>)
    ensures |r| == |lines|
  {
    seq(|lines|, i requires 0 <= i < |lines| => Lex(lines[i]))
  }

  /** One line of the block, by its number of tokens: one token is a
      value that closes the group; three join the group; four reach the
      spin branch, whose `.lower()` on an integer raises AttributeError;
      any other count is skipped. */
  function Step(st: St, toks: seq<int>): Result<St>
  {
    if |toks| == 1 then Ok(St(st.values + [toks[0]], st.all + [st.cur], []))
    else if |toks| == 3 then Ok(st.(cur := st.cur + [toks]))
    else if |toks| == 4 then Err(AttributeError)
    else Ok(st)
  }

  /** The second loop from the line of `ks[0]` on: up to the first `$end`
      line; running out of lines is the StopIteration of `next`. */
  function Body(ks: seq<Kind>, st: St): Result<St>
    decreases |ks|
  {
    if |ks| == 0 then Err(StopIteration)
    else
      match ks[0]
      case EndLine => Ok(st)
      case Bad(e) => Err(e)
      case Toks(toks) =>
        match Step(st, toks)
        case Err(e) => Err(e)
        case Ok(next) => Body(ks[1..], next)
  }

  /** `del all_constraints[0]` (IndexError when no value was read), then
      the last group is appended. */
  function Finish(st: St): Result<(seq<int>, seq<seq<Constraint>>)>
  {
    if |st.all| == 0 then Err(IndexError)
    else Ok((st.values, st.all[1..] + [st.cur]))
  }

  /** The index of the first `$cdft` line at or after `j`. */
  function FindCdft(lines: seq<string>, j: nat): (r: Option<nat>)
    ensures r.Some? ==> j <= r.value < |lines| && IsCdft(lines[r.value])
    ensures r.Some? ==> forall k :: j <= k < r.value ==> !IsCdft(lines[k])
    ensures r.None? ==> forall k :: j <= k < |lines| ==> !IsCdft(lines[k])
    decreases |lines| - j
  {
    if j >= |lines| then None
    else if IsCdft(lines[j]) then Some(j)
    else FindCdft(lines, j + 1)
  }

  /** The result once the second loop has ended, or has raised. */
  function AfterBody(b: Result<St>): Result<(seq<int>, seq<seq<Constraint>>)>
  {
    match b
    case Err(e) => Err(e)
    case Ok(st) => Finish(st)
  }

  /** `parse_cdft_block` as a value. */
  function ParseSpec(lines: seq<string>): Result<(seq<int>, seq<seq<Constraint>>)>
  {
    match FindCdft(lines, 0)
    case None => Err(StopIteration)
    case Some(i) => AfterBody(Body(LineKinds(lines[i + 1..]), Init))
  }

  /** `parse_cdft_block(outputfilename)` on the file's lines. */
  method ParseCdftBlock(lines: seq<string>) returns (r: Result<(seq<int>, seq<seq<Constraint>>)>)
    ensures r == ParseSpec(lines)
  {
    var constraintValues: seq<int> := [];
    var allConstraints: seq<seq<Constraint>> := [];
    var constraints: seq<Constraint> := [];
    var j := 0;
    var line := "";
    CdftNotEmpty();
    while !IsCdft(line)
      invariant 0 <= j <= |lines|
      invariant j > 0 ==> line == lines[j - 1]
      invariant !IsCdft(line) ==> FindCdft(lines, j) == FindCdft(lines, 0)
      invariant IsCdft(line) ==> j > 0 && FindCdft(lines, 0) == Some(j - 1)
      decreases |lines| - j, if IsCdft(line) then 0 else 1
    {
      if j >= |lines| {
        return Err(StopIteration);
      }
      line := lines[j];
      j := j + 1;
    }
    var i := j;
    if i >= |lines| {
      BodyOffEnd(lines, i, Init);
      return Err(StopIteration);
    }
    ghost var result := AfterBody(Body(LineKinds(lines[i..]), Init));
    assert ParseSpec(lines) == result;
    line := lines[i];
    while !IsEnd(line)
      invariant 0 <= i < |lines| && line == lines[i]
      invariant ParseSpec(lines) == result
      invariant result == AfterBody(Body(LineKinds(lines[i..]), St(constraintValues, allConstraints, constraints)))
      decreases |lines| - i
    {
      BodyFails(lines, i, St(constraintValues, allConstraints, constraints));
      var tokens := Tokens(line);
      if tokens.Err? {
        return Err(tokens.exc);
      }
      var toks := tokens.value;
      ghost var before := St(constraintValues, allConstraints, constraints);
      if |toks| == 0 {
      } else if |toks| == 1 {
        constraintValues := constraintValues + [toks[0]];
        allConstraints := allConstraints + [constraints];
        constraints := [];
      } else if |toks| == 2 {
      } else if |toks| == 3 {
        constraints := constraints + [toks];
      } else if |toks| == 4 {
        return Err(AttributeError);
      }
      var next := i + 1;
      BodyAdvance(lines, i, next, before, toks, St(constraintValues, allConstraints, constraints));
      i := next;
      if i >= |lines| {
        BodyOffEnd(lines, i, St(constraintValues, allConstraints, constraints));
        return Err(StopIteration);
      }
      line := lines[i];
    }
    BodyAtEnd(lines, i, St(constraintValues, allConstraints, constraints));
    if |allConstraints| == 0 {
      return Err(IndexError);
    }
    allConstraints := allConstraints[1..];
    allConstraints := allConstraints + [constraints];
    r := Ok((constraintValues, allConstraints));
  }

  /** A line of integers moves the block parse on by one step. */
  lemma BodyAdvance(lines: seq<string>, i: nat, i': nat, st: St, toks: seq<int>, next: St)
    requires i < |lines| && i' == i + 1 && !IsEnd(lines[i]) && Tokens(lines[i]) == Ok(toks)
    requires Step(st, toks) == Ok(next)
    ensures AfterBody(Body(LineKinds(lines[i..]), st)) == AfterBody(Body(LineKinds(lines[i'..]), next))
  {
    assert LineKinds(lines[i..])[1..] == LineKinds(lines[i'..]);
  }

  lemma BodyFails(lines: seq<string>, j: nat, st: St)
    requires j < |lines| && !IsEnd(lines[j])
    ensures Tokens(lines[j]).Err? ==> Body(LineKinds(lines[j..]), st) == Err(Tokens(lines[j]).exc)
    ensures Tokens(lines[j]).Ok? && |Tokens(lines[j]).value| == 4 ==>
      Body(LineKinds(lines[j..]), st) == Err(AttributeError)
  {
    assert LineKinds(lines[j..])[0] == Lex(lines[j]);
  }

  lemma BodyOffEnd(lines: seq<string>, i: nat, st: St)
    requires i >= |lines|
    ensures i <= |lines| ==> Body(LineKinds(lines[i..]), st) == Err(StopIteration)
  {
    if i == |lines| {
      assert LineKinds(lines[i..]) == [];
    }
  }

  lemma BodyAtEnd(lines: seq<string>, j: nat, st: St)
    requires j < |lines| && IsEnd(lines[j])
    ensures Body(LineKinds(lines[j..]), st) == Ok(st)
  {
    assert LineKinds(lines[j..])[0] == Lex(lines[j]);
  }

  lemma CdftNotEmpty()
    ensures !IsCdft("")
  {
    assert Lower(Strip("")) == "";
  }

  // ---------------------------------------------------------------------
  // What the block means

  /** A line that neither ends the block nor holds a value: it parses and
      has a token count other than one and four. */
  predicate Plain(k: Kind)
  {
    k.Toks? && |k.toks| != 1 && |k.toks| != 4
  }

  /** The charge constraints among plain lines, in order. */
  function Triples(ks: seq<Kind>): (r: seq<Constraint>)
    requires forall m :: 0 <= m < |ks| ==> Plain(ks[m])
    ensures forall m :: 0 <= m < |r| ==> |r[m]| == 3
    ensures |r| <= |ks|
  {
    if |ks| == 0 then []
    else
      assert Plain(ks[0]);
      var rest := Triples(ks[1..]);
      if |ks[0].toks| == 3 then [ks[0].toks] + rest else rest
  }

  /** A constraint value and the plain lines after it. */
  datatype Entry = Entry(value: int, lines: seq<Kind>)

  predicate WellFormed(e: Entry)
  {
    forall m :: 0 <= m < |e.lines| ==> Plain(e.lines[m])
  }

  /** The block lines of the entries, in order. */
  function BlockOf(es: seq<Entry>): seq<Kind>
  {
    if |es| == 0 then [] else [Toks([es[0].value])] + es[0].lines + BlockOf(es[1..])
  }

  /** The value of each entry. */
  function Vals(es: seq<Entry>): (r: seq<int>)
    ensures |r| == |es|
    ensures forall m :: 0 <= m < |es| ==> r[m] == es[m].value
  {
    if |es| == 0 then [] else [es[0].value] + Vals(es[1..])
  }

  /** The charge constraints of each entry. */
  function Groups(es: seq<Entry>): (r: seq<seq<Constraint>>)
    requires forall m :: 0 <= m < |es| ==> WellFormed(es[m])
    ensures |r| == |es|
  {
    if |es| == 0 then []
    else
      assert WellFormed(es[0]);
      [Triples(es[0].lines)] + Groups(es[1..])
  }

  /** The `k`-th group of the entries is the charge constraints among the
      lines of the `k`-th entry. */
  lemma {:induction false} GroupsAt(es: seq<Entry>, k: nat)
    requires forall m :: 0 <= m < |es| ==> WellFormed(es[m])
    requires k < |es|
    ensures Groups(es)[k] == Triples(es[k].lines)
    decreases k
  {
    if k > 0 {
      GroupsAt(es[1..], k - 1);
    }
  }

  /** A run of plain lines adds its charge constraints to the current
      group and changes nothing else. */
  lemma {:induction false} PlainRun(ks: seq<Kind>, tail: seq<Kind>, st: St)
    requires forall m :: 0 <= m < |ks| ==> Plain(ks[m])
    ensures Body(ks + tail, st) == Body(tail, st.(cur := st.cur + Triples(ks)))
    decreases |ks|
  {
    if |ks| == 0 {
      assert ks + tail == tail;
      assert st.cur + [] == st.cur;
    } else {
      var toks := ks[0].toks;
      assert (ks + tail)[0] == ks[0];
      assert (ks + tail)[1..] == ks[1..] + tail;
      var next := if |toks| == 3 then st.(cur := st.cur + [toks]) else st;
      assert Step(st, toks) == Ok(next);
      PlainRun(ks[1..], tail, next);
      if |toks| == 3 {
        assert st.cur + [toks] + Triples(ks[1..]) == st.cur + Triples(ks);
      }
    }
  }

  /** The first entry: its value is recorded, the open group is closed,
      and the entry's charge constraints form the new open group. */
  lemma {:induction false} EntryHead(es: seq<Entry>, tail: seq<Kind>, st: St)
    requires |es| > 0 && WellFormed(es[0])
    ensures Body(BlockOf(es) + tail, st) ==
      Body(BlockOf(es[1..]) + tail, St(st.values + [es[0].value], st.all + [st.cur], Triples(es[0].lines)))
  {
    var e := es[0];
    var rest := BlockOf(es[1..]) + tail;
    assert BlockOf(es) + tail == [Toks([e.value])] + (e.lines + rest);
    var s1 := St(st.values + [e.value], st.all + [st.cur], []);
    assert Body([Toks([e.value])] + (e.lines + rest), st) == Body(e.lines + rest, s1) by {
      assert ([Toks([e.value])] + (e.lines + rest))[1..] == e.lines + rest;
    }
    PlainRun(e.lines, rest, s1);
    assert [] + Triples(e.lines) == Triples(e.lines);
  }

  /** The parse state after the entries. */
  function AfterEntries(st: St, es: seq<Entry>): St
    requires forall m :: 0 <= m < |es| ==> WellFormed(es[m])
    decreases |es|
  {
    if |es| == 0 then st
    else
      assert WellFormed(es[0]);
      AfterEntries(St(st.values + [es[0].value], st.all + [st.cur], Triples(es[0].lines)), es[1..])
  }

  /** The entries are read one after the other. */
  lemma {:induction false} EntriesBody(es: seq<Entry>, tail: seq<Kind>, st: St)
    requires forall m :: 0 <= m < |es| ==> WellFormed(es[m])
    ensures Body(BlockOf(es) + tail, st) == Body(tail, AfterEntries(st, es))
    decreases |es|
  {
    if |es| == 0 {
      assert BlockOf(es) + tail == tail;
    } else {
      assert WellFormed(es[0]);
      EntryHead(es, tail, st);
      EntriesBody(es[1..], tail, St(st.values + [es[0].value], st.all + [st.cur], Triples(es[0].lines)));
    }
  }

  /** After the entries each value is recorded, the group before each
      value is closed, and the last entry's group is the one still open. */
  lemma {:induction false} AfterEntriesMeaning(st: St, es: seq<Entry>)
    requires |es| > 0
    requires forall m :: 0 <= m < |es| ==> WellFormed(es[m])
    ensures AfterEntries(st, es) ==
      St(st.values + Vals(es), st.all + [st.cur] + Groups(es)[..|es| - 1], Groups(es)[|es| - 1])
    decreases |es|
  {
    var e := es[0];
    assert WellFormed(e);
    var s2 := St(st.values + [e.value], st.all + [st.cur], Triples(e.lines));
    assert Vals(es) == [e.value] + Vals(es[1..]);
    assert Groups(es) == [Triples(e.lines)] + Groups(es[1..]);
    if |es| == 1 {
      assert st.all + [st.cur] + Groups(es)[..0] == st.all + [st.cur];
    } else {
      AfterEntriesMeaning(s2, es[1..]);
      EntriesShift(st.all + [st.cur], Triples(e.lines), Groups(es[1..]));
      assert st.values + [e.value] + Vals(es[1..]) == st.values + Vals(es);
    }
  }

  lemma EntriesShift(a: seq<seq<Constraint>>, g: seq<Constraint>, gs: seq<seq<Constraint>>)
    requires |gs| > 0
    ensures a + [g] + gs[..|gs| - 1] == a + ([g] + gs)[..|gs|]
    ensures gs[|gs| - 1] == ([g] + gs)[|gs|]
  {
    assert ([g] + gs)[..|gs|] == [g] + gs[..|gs| - 1];
  }

  /** The lines of a block of the usual shape: groups before the first
      value are dropped, there is one value per entry in order, and the
      `k`-th group holds the charge constraints that follow the `k`-th
      value up to the next value or `$end`; nothing after `$end` is read. */
  lemma {:induction false} BlockBody(pre: seq<Kind>, es: seq<Entry>, after: seq<Kind>)
    requires forall m :: 0 <= m < |pre| ==> Plain(pre[m])
    requires |es| > 0 && forall m :: 0 <= m < |es| ==> WellFormed(es[m])
    ensures AfterBody(Body(pre + BlockOf(es) + [EndLine] + after, Init)) == Ok((Vals(es), Groups(es)))
  {
    var tail := [EndLine] + after;
    var s0 := St([], [], Triples(pre));
    assert pre + BlockOf(es) + [EndLine] + after == pre + BlockOf(es) + tail;
    ReadThrough(pre, es, tail);
    var fin := AfterEntries(s0, es);
    assert Body(tail, fin) == Ok(fin);
    FinishEntries(Triples(pre), es);
  }

  lemma {:induction false} ReadThrough(pre: seq<Kind>, es: seq<Entry>, tail: seq<Kind>)
    requires forall m :: 0 <= m < |pre| ==> Plain(pre[m])
    requires forall m :: 0 <= m < |es| ==> WellFormed(es[m])
    ensures Body(pre + BlockOf(es) + tail, Init) == Body(tail, AfterEntries(St([], [], Triples(pre)), es))
  {
    assert pre + BlockOf(es) + tail == pre + (BlockOf(es) + tail);
    PlainRun(pre, BlockOf(es) + tail, Init);
    assert Init.(cur := Init.cur + Triples(pre)) == St([], [], Triples(pre));
    EntriesBody(es, tail, St([], [], Triples(pre)));
  }

  lemma {:induction false} FinishEntries(g: seq<Constraint>, es: seq<Entry>)
    requires |es| > 0 && forall m :: 0 <= m < |es| ==> WellFormed(es[m])
    ensures Finish(AfterEntries(St([], [], g), es)) == Ok((Vals(es), Groups(es)))
  {
    var s0 := St([], [], g);
    AfterEntriesMeaning(s0, es);
    var n := |es| - 1;
    var fin := St(Vals(es), [g] + Groups(es)[..n], Groups(es)[n]);
    assert AfterEntries(s0, es) == fin by {
      assert [] + Vals(es) == Vals(es);
      assert [] + [g] + Groups(es)[..n] == [g] + Groups(es)[..n];
    }
    DropLast(Groups(es));
    assert fin.all[1..] == Groups(es)[..n];
  }

  /** A block of the usual shape, wherever it sits in the file: lines
      before the first `$cdft` are not read, and the block is read as
      `BlockBody` says. */
  lemma {:induction false} ParseWellFormed(head: seq<string>, open: string, body: seq<string>,
                        pre: seq<Kind>, es: seq<Entry>, after: seq<Kind>)
    requires forall m :: 0 <= m < |head| ==> !IsCdft(head[m])
    requires IsCdft(open)
    requires forall m :: 0 <= m < |pre| ==> Plain(pre[m])
    requires |es| > 0 && forall m :: 0 <= m < |es| ==> WellFormed(es[m])
    requires LineKinds(body) == pre + BlockOf(es) + [EndLine] + after
    ensures ParseSpec(head + [open] + body) == Ok((Vals(es), Groups(es)))
  {
    FindAfterHead(head, open, body);
    assert (head + [open] + body)[|head| + 1..] == body;
    BlockBody(pre, es, after);
  }

  lemma DropLast<T>(xs: seq<T>)
    requires |xs| > 0
    ensures xs[..|xs| - 1] + [xs[|xs| - 1]] == xs
  {
  }

  lemma FindAfterHead(head: seq<string>, open: string, rest: seq<string>)
    requires forall m :: 0 <= m < |head| ==> !IsCdft(head[m])
    requires IsCdft(open)
    ensures FindCdft(head + [open] + rest, 0) == Some(|head|)
  {
    var lines := head + [open] + rest;
    assert lines[|head|] == open;
    assert forall m :: 0 <= m < |head| ==> lines[m] == head[m];
  }

  /** The caller's check holds whenever the parse succeeds: there are as
      many groups as values, and at least one. */
  lemma ParseLengths(lines: seq<string>)
    requires ParseSpec(lines).Ok?
    ensures |ParseSpec(lines).value.0| == |ParseSpec(lines).value.1|
    ensures |ParseSpec(lines).value.0| > 0
  {
    var i := FindCdft(lines, 0).value;
    BodyKeepsCounts(LineKinds(lines[i + 1..]), Init);
  }

  /** The block parse records one closed group per value. */
  lemma {:induction false} BodyKeepsCounts(ks: seq<Kind>, st: St)
    requires |st.all| == |st.values|
    requires Body(ks, st).Ok?
    ensures |Body(ks, st).value.all| == |Body(ks, st).value.values|
    ensures |Body(ks, st).value.values| >= |st.values|
    decreases |ks|
  {
    if ks[0].Toks? {
      BodyKeepsCounts(ks[1..], Step(st, ks[0].toks).value);
    }
  }

  /** Inside the block, a line with a token that is not an integer is a
      ValueError and a line of four integers is an AttributeError, so a
      spin constraint line never parses. */
  lemma BodyErrors(line: string, tail: seq<Kind>, st: St)
    requires !IsEnd(line)
    ensures Tokens(line).Err? ==> Body([Lex(line)] + tail, st) == Err(ValueError)
    ensures Tokens(line).Ok? && |Tokens(line).value| == 4 ==> Body([Lex(line)] + tail, st) == Err(AttributeError)
  {
  }

  /** A block with no value line fails with IndexError. */
  lemma {:induction false} NoValueFails(head: seq<string>, open: string, body: seq<string>, pre: seq<Kind>, after: seq<Kind>)
    requires forall m :: 0 <= m < |head| ==> !IsCdft(head[m])
    requires IsCdft(open)
    requires forall m :: 0 <= m < |pre| ==> Plain(pre[m])
    requires LineKinds(body) == pre + [EndLine] + after
    ensures ParseSpec(head + [open] + body) == Err(IndexError)
  {
    FindAfterHead(head, open, body);
    assert (head + [open] + body)[|head| + 1..] == body;
    assert LineKinds(body) == pre + ([EndLine] + after);
    PlainRun(pre, [EndLine] + after, Init);
  }

  /** Without a `$cdft` line, or with nothing after it, `next` runs out of
      lines. */
  lemma NoBlockFails(lines: seq<string>, open: string)
    requires forall m :: 0 <= m < |lines| ==> !IsCdft(lines[m])
    requires IsCdft(open)
    ensures ParseSpec(lines) == Err(StopIteration)
    ensures ParseSpec(lines + [open]) == Err(StopIteration)
  {
    FindAfterHead(lines, open, []);
    assert lines + [open] + [] == lines + [open];
  }
}
