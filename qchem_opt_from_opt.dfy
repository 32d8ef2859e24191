/** qchem_make_opt_input_from_opt.py: reading the echoed `User input:`
    sections of a Q-Chem output back into an ordered dictionary, and
    naming the input file of the next optimization. */
module QChemOptFromOpt {
  import opened Py
  import opened Strs
  import opened ODict

  /** The value of a section: the list of its lines while it is open,
      the `\n`-joined text once its `$end` has been read. */
  datatype Section = Lines(lines: seq<string>) | Text(text: string)

  /** The line of 62 dashes that closes the echoed input. */
  const Rule := Repeat('-', 62)

  /** `'\n'.join(s)` on a string joins its characters. */
  function Chars(s: string): (r: seq<string>)
    ensures |r| == |s|
    ensures forall i :: 0 <= i < |s| ==> r[i] == [s[i]]
  {
    seq(|s|, i requires 0 <= i < |s| => [s[i]])
  }

  /** A line of the echoed input as the loop tells it apart, in the
      order of its tests: the closing rule, a blank line, a section
      header, a section end, or any other line. */
  datatype Kind = Stop | Blank | Header(name: string) | End | Content(line: string)

  function Lex(line: string): (r: Kind)
    ensures r.Stop? <==> Contains(line, Rule)
    ensures r.Blank? <==> !Contains(line, Rule) && Strip(line) == ""
    ensures r.Header? <==>
      !Contains(line, Rule) && Strip(line) != "" && |line| > 0 && line[0] == '$' && Lower(Strip(line)) != "$end"
    ensures r.Header? ==> r.name == Lower(line[1..])
    ensures r.End? <==> !Contains(line, Rule) && Lower(Strip(line)) == "$end"
    ensures r.Content? ==> r.line == line && Strip(line) != "" && Lower(Strip(line)) != "$end"
  {
    if Contains(line, Rule) then Stop
    else if Strip(line) == "" then Blank
    else if line[0] == '$' && Lower(Strip(line)) != "$end" then Header(Lower(line[1..]))
    else if Lower(Strip(line)) == "$end" then End
    else Content(line)
  }

  /** The class of each line, in file order: what the section loop sees
      one line at a time. */
  function LexAll(lines: seq<string>): (r: seq<Kind>)
    ensures |r| == |lines|
  {
    seq(|lines|, i requires 0 <= i < |lines| => Lex(lines[i]))
  }

  /** The loop's variables: the open section (unbound before the first
      header) and the dictionary. */
  datatype St = St(header: Option<string>, d: Dict<string, Section>)

  const Init := St(None, [])

  /** The effect of one line other than the rule. Using the section
      before any header is bound raises UnboundLocalError; appending to a
      section already joined into text raises AttributeError. */
  function Step(st: St, k: Kind): Result<St>
  {
    match k
    case Stop => Ok(st)
    case Blank => Ok(st)
    case Header(h) => Ok(St(Some(h), Set(st.d, h, Lines([]))))
    case End =>
      if st.header.None? then Err(UnboundLocalError)
      else
        var h := st.header.value;
        var cur := Get(st.d, h);
        if cur.None? then Err(KeyError)
        else if cur.value.Lines? then Ok(st.(d := Set(st.d, h, Text(Join("\n", cur.value.lines)))))
        else Ok(st.(d := Set(st.d, h, Text(Join("\n", Chars(cur.value.text))))))
    case Content(l) =>
      if st.header.None? then Err(UnboundLocalError)
      else
        var h := st.header.value;
        var cur := Get(st.d, h);
        if cur.None? then Err(KeyError)
        else if cur.value.Lines? then Ok(st.(d := Set(st.d, h, Lines(cur.value.lines + [l]))))
        else Err(AttributeError)
  }

  /** The main loop from the line of `ks[0]` on, up to the rule; running
      out of lines is the StopIteration of `next`. */
  function Body(ks: seq<Kind>, st: St): Result<Dict<string, Section>>
    decreases |ks|
  {
    if |ks| == 0 then Err(StopIteration)
    else if ks[0].Stop? then Ok(st.d)
    else
      match Step(st, ks[0])
      case Err(e) => Err(e)
      case Ok(next) => Body(ks[1..], next)
  }

  /** The index of the first line at or after `j` that contains
      `User input:`. */
  function FindUserInput(lines: seq<string>, j: nat): (r: Option<nat>)
    ensures r.Some? ==> j <= r.value < |lines| && Contains(lines[r.value], "User input:")
    ensures r.Some? ==> forall k :: j <= k < r.value ==> !Contains(lines[k], "User input:")
    ensures r.None? ==> forall k :: j <= k < |lines| ==> !Contains(lines[k], "User input:")
    decreases |lines| - j
  {
    if j >= |lines| then None
    else if Contains(lines[j], "User input:") then Some(j)
    else FindUserInput(lines, j + 1)
  }

  /** `parse_user_input` as a value: skip to the first `User input:`
      line, check that the next line holds `----`, then read sections
      from the line after it. */
  function ParseSpec(lines: seq<string>): Result<Dict<string, Section>>
  {
    match FindUserInput(lines, 0)
    case None => Err(StopIteration)
    case Some(i) =>
      if i + 1 >= |lines| then Err(StopIteration)
      else if !Contains(lines[i + 1], "----") then Err(AssertionError)
      else if i + 2 >= |lines| then Err(StopIteration)
      else Body(LexAll(lines[i + 2..]), Init)
  }

  /** `parse_user_input(outputfilename)` on the file's lines. */
  method ParseUserInput(lines: seq<string>) returns (r: Result<Dict<string, Section>>)
    ensures r == ParseSpec(lines)
  {
    var userInput: Dict<string, Section> := [];
    var sectionHeader: Option<string> := None;
    var j := 0;
    var line := "";
    UserInputNotInEmpty();
    while !Contains(line, "User input:")
      invariant 0 <= j <= |lines|
      invariant j > 0 ==> line == lines[j - 1]
      invariant !Contains(line, "User input:") ==> FindUserInput(lines, j) == FindUserInput(lines, 0)
      invariant Contains(line, "User input:") ==> j > 0 && FindUserInput(lines, 0) == Some(j - 1)
      decreases |lines| - j, if Contains(line, "User input:") then 0 else 1
    {
      if j >= |lines| {
        return Err(StopIteration);
      }
      line := lines[j];
      j := j + 1;
    }
    if j >= |lines| {
      return Err(StopIteration);
    }
    line := lines[j];
    if !Contains(line, "----") {
      return Err(AssertionError);
    }
    var i := j + 1;
    if i >= |lines| {
      return Err(StopIteration);
    }
    line := lines[i];
    ghost var result := Body(LexAll(lines[i..]), Init);
    assert ParseSpec(lines) == result;
    while !Contains(line, Rule)
      invariant 0 <= i < |lines| && line == lines[i]
      invariant ParseSpec(lines) == result
      invariant result == Body(LexAll(lines[i..]), St(sectionHeader, userInput))
      decreases |lines| - i
    {
      ghost var before := St(sectionHeader, userInput);
      BodyFails(lines, i, before);
      if Strip(line) == "" {
      } else if line[0] == '$' && Lower(Strip(line)) != "$end" {
        sectionHeader := Some(Lower(line[1..]));
        userInput := Set(userInput, sectionHeader.value, Lines([]));
      } else if Lower(Strip(line)) == "$end" {
        if sectionHeader.None? {
          return Err(UnboundLocalError);
        }
        var h := sectionHeader.value;
        var cur := Get(userInput, h);
        if cur.None? {
          return Err(KeyError);
        }
        if cur.value.Lines? {
          userInput := Set(userInput, h, Text(Join("\n", cur.value.lines)));
        } else {
          userInput := Set(userInput, h, Text(Join("\n", Chars(cur.value.text))));
        }
      } else {
        if sectionHeader.None? {
          return Err(UnboundLocalError);
        }
        var h := sectionHeader.value;
        var cur := Get(userInput, h);
        if cur.None? {
          return Err(KeyError);
        }
        if cur.value.Text? {
          return Err(AttributeError);
        }
        userInput := Set(userInput, h, Lines(cur.value.lines + [line]));
      }
      var next := i + 1;
      BodyAdvance(lines, i, next, before, St(sectionHeader, userInput));
      i := next;
      if i >= |lines| {
        BodyOffEnd(lines, i, St(sectionHeader, userInput));
        return Err(StopIteration);
      }
      line := lines[i];
    }
    BodyAtEnd(lines, i, St(sectionHeader, userInput));
    r := Ok(userInput);
  }

  lemma UserInputNotInEmpty()
    ensures !Contains("", "User input:")
  {
  }

  /** A line other than the rule moves the parse on by one step. */
  lemma BodyAdvance(lines: seq<string>, i: nat, i': nat, st: St, next: St)
    requires i < |lines| && i' == i + 1 && !Contains(lines[i], Rule)
    requires Step(st, Lex(lines[i])) == Ok(next)
    ensures Body(LexAll(lines[i..]), st) == Body(LexAll(lines[i'..]), next)
  {
    assert LexAll(lines[i..])[0] == Lex(lines[i]);
    assert LexAll(lines[i..])[1..] == LexAll(lines[i'..]);
  }

  lemma BodyFails(lines: seq<string>, i: nat, st: St)
    requires i < |lines| && !Contains(lines[i], Rule)
    ensures Step(st, Lex(lines[i])).Err? ==> Body(LexAll(lines[i..]), st) == Err(Step(st, Lex(lines[i])).exc)
  {
    assert LexAll(lines[i..])[0] == Lex(lines[i]);
  }

  lemma BodyOffEnd(lines: seq<string>, i: nat, st: St)
    requires i >= |lines|
    ensures i <= |lines| ==> Body(LexAll(lines[i..]), st) == Err(StopIteration)
  {
    if i == |lines| {
      assert LexAll(lines[i..]) == [];
    }
  }

  lemma BodyAtEnd(lines: seq<string>, i: nat, st: St)
    requires i < |lines| && Contains(lines[i], Rule)
    ensures Body(LexAll(lines[i..]), st) == Ok(st.d)
  {
    assert LexAll(lines[i..])[0] == Lex(lines[i]);
  }

  // ---------------------------------------------------------------------
  // What the echoed input means

  /** An echoed section: the name after `$` and its non-blank lines. */
  datatype Sec = Sec(name: string, body: seq<string>)

  function Contents(ls: seq<string>): (r: seq<Kind>)
    ensures |r| == |ls|
    ensures forall m :: 0 <= m < |ls| ==> r[m] == Content(ls[m])
  {
    seq(|ls|, m requires 0 <= m < |ls| => Content(ls[m]))
  }

  /** The lines of one section: its header, its lines, its `$end`. */
  function SecKinds(s: Sec): seq<Kind>
  {
    [Header(s.name)] + Contents(s.body) + [End]
  }

  /** The lines of the sections, one after the other. */
  function Blocks(secs: seq<Sec>): seq<Kind>
  {
    if |secs| == 0 then [] else SecKinds(secs[0]) + Blocks(secs[1..])
  }

  predicate DistinctNames(secs: seq<Sec>)
  {
    forall m, n :: 0 <= m < n < |secs| ==> secs[m].name != secs[n].name
  }

  /** The dictionary the sections should give: each name, in order, with
      its lines joined by newlines. */
  function Expected(secs: seq<Sec>): (r: Dict<string, Section>)
    ensures |r| == |secs|
    ensures forall m :: 0 <= m < |secs| ==> r[m] == (secs[m].name, Text(Join("\n", secs[m].body)))
  {
    seq(|secs|, m requires 0 <= m < |secs| => (secs[m].name, Text(Join("\n", secs[m].body))))
  }

  /** Lines read inside an open section are appended to its list, in
      order. */
  lemma {:induction false} ContentRun(cs: seq<string>, tail: seq<Kind>, st: St, xs: seq<string>)
    requires st.header.Some? && Get(st.d, st.header.value) == Some(Lines(xs))
    ensures Body(Contents(cs) + tail, st) == Body(tail, st.(d := Set(st.d, st.header.value, Lines(xs + cs))))
    decreases |cs|
  {
    var h := st.header.value;
    if |cs| == 0 {
      assert Contents(cs) + tail == tail;
      assert xs + cs == xs;
      SetGet(st.d, h, Lines(xs));
    } else {
      var ys := xs + [cs[0]];
      var st1 := st.(d := Set(st.d, h, Lines(ys)));
      assert (Contents(cs) + tail)[0] == Content(cs[0]);
      assert (Contents(cs) + tail)[1..] == Contents(cs[1..]) + tail;
      assert Step(st, Content(cs[0])) == Ok(st1);
      GetSetSame(st.d, h, Lines(ys));
      ContentRun(cs[1..], tail, st1, ys);
      SetTwice(st.d, h, Lines(ys), Lines(ys + cs[1..]));
      assert ys + cs[1..] == xs + cs;
    }
  }

  /** A section opens its name, and its `$end` stores the joined lines
      under that name. */
  lemma {:induction false} SectionRead(s: Sec, tail: seq<Kind>, st: St)
    ensures Body(SecKinds(s) + tail, st) ==
      Body(tail, St(Some(s.name), Set(st.d, s.name, Text(Join("\n", s.body)))))
  {
    var n := s.name;
    var rest := [End] + tail;
    var st1 := St(Some(n), Set(st.d, n, Lines([])));
    assert SecKinds(s) + tail == [Header(n)] + (Contents(s.body) + rest);
    HeaderStep(n, Contents(s.body) + rest, st);
    GetSetSame(st.d, n, Lines([]));
    ContentRun(s.body, rest, st1, []);
    assert [] + s.body == s.body;
    SetTwice(st.d, n, Lines([]), Lines(s.body));
    EndStep(n, s.body, tail, st.d);
  }

  lemma HeaderStep(n: string, rest: seq<Kind>, st: St)
    ensures Body([Header(n)] + rest, st) == Body(rest, St(Some(n), Set(st.d, n, Lines([]))))
  {
    assert ([Header(n)] + rest)[1..] == rest;
  }

  lemma EndStep(n: string, body: seq<string>, tail: seq<Kind>, d: Dict<string, Section>)
    ensures Body([End] + tail, St(Some(n), Set(d, n, Lines(body)))) ==
      Body(tail, St(Some(n), Set(d, n, Text(Join("\n", body)))))
  {
    GetSetSame(d, n, Lines(body));
    assert ([End] + tail)[1..] == tail;
    SetTwice(d, n, Lines(body), Text(Join("\n", body)));
  }

  /** The parse state after the sections. */
  function AfterSecs(st: St, secs: seq<Sec>): St
    decreases |secs|
  {
    if |secs| == 0 then st
    else
      var s := secs[0];
      AfterSecs(St(Some(s.name), Set(st.d, s.name, Text(Join("\n", s.body)))), secs[1..])
  }

  /** The sections are read one after the other. */
  lemma {:induction false} SectionsRead(secs: seq<Sec>, tail: seq<Kind>, st: St)
    ensures Body(Blocks(secs) + tail, st) == Body(tail, AfterSecs(st, secs))
    decreases |secs|
  {
    if |secs| == 0 {
      assert Blocks(secs) + tail == tail;
    } else {
      var s := secs[0];
      assert Blocks(secs) + tail == SecKinds(s) + (Blocks(secs[1..]) + tail);
      SectionRead(s, Blocks(secs[1..]) + tail, st);
      SectionsRead(secs[1..], tail, St(Some(s.name), Set(st.d, s.name, Text(Join("\n", s.body)))));
    }
  }

  /** Sections with new, distinct names are appended to the dictionary
      in the order they were read. */
  lemma {:induction false} AfterSecsAppends(st: St, secs: seq<Sec>)
    requires DistinctNames(secs)
    requires forall m :: 0 <= m < |secs| ==> secs[m].name !in Keys(st.d)
    ensures AfterSecs(st, secs).d == st.d + Expected(secs)
    decreases |secs|
  {
    if |secs| == 0 {
      assert st.d + Expected(secs) == st.d;
    } else {
      var s := secs[0];
      var e := (s.name, Text(Join("\n", s.body)));
      var st1 := St(Some(s.name), st.d + [e]);
      assert AfterSecs(st, secs).d == st1.d + Expected(secs[1..]) by {
        FreshSection(st.d, secs);
        assert AfterSecs(st, secs) == AfterSecs(st1, secs[1..]);
        AfterSecsAppends(st1, secs[1..]);
      }
      ExpectedCons(secs);
      ConsAssoc(st.d, e, Expected(secs[1..]), Expected(secs));
    }
  }

  /** The first of the sections is appended, and the names of the others
      are still new. */
  lemma FreshSection(d: Dict<string, Section>, secs: seq<Sec>)
    requires |secs| > 0 && DistinctNames(secs)
    requires forall m :: 0 <= m < |secs| ==> secs[m].name !in Keys(d)
    ensures Set(d, secs[0].name, Text(Join("\n", secs[0].body))) == d + [(secs[0].name, Text(Join("\n", secs[0].body)))]
    ensures DistinctNames(secs[1..])
    ensures forall m :: 0 <= m < |secs[1..]| ==> secs[1..][m].name !in Keys(d + [(secs[0].name, Text(Join("\n", secs[0].body)))])
  {
    var e := (secs[0].name, Text(Join("\n", secs[0].body)));
    SetAppends(d, e.0, e.1);
    assert Keys(d + [e]) == Keys(d) + [e.0];
    forall m | 0 <= m < |secs[1..]|
      ensures secs[1..][m].name !in Keys(d + [e])
    {
      assert secs[1..][m] == secs[m + 1];
    }
  }

  lemma ConsAssoc<T>(a: seq<T>, e: T, b: seq<T>, c: seq<T>)
    requires c == [e] + b
    ensures a + [e] + b == a + c
  {
  }

  lemma ExpectedCons(secs: seq<Sec>)
    requires |secs| > 0
    ensures Expected(secs) == [(secs[0].name, Text(Join("\n", secs[0].body)))] + Expected(secs[1..])
  {
  }

  /** The lines without the blank ones. */
  function NoBlanks(ks: seq<Kind>): (r: seq<Kind>)
    ensures forall m :: 0 <= m < |r| ==> !r[m].Blank?
    ensures |r| <= |ks|
  {
    if |ks| == 0 then []
    else if ks[0].Blank? then NoBlanks(ks[1..])
    else [ks[0]] + NoBlanks(ks[1..])
  }

  /** Blank lines change nothing: the parse reads the lines as if they
      were not there. */
  lemma {:induction false} BlanksDropped(ks: seq<Kind>, st: St)
    ensures Body(NoBlanks(ks), st) == Body(ks, st)
    decreases |ks|
  {
    if |ks| > 0 {
      BlanksDropped(ks[1..], st);
      if !ks[0].Blank? && !ks[0].Stop? {
        var nb := NoBlanks(ks);
        assert nb[0] == ks[0] && nb[1..] == NoBlanks(ks[1..]);
        if Step(st, ks[0]).Ok? {
          BlanksDropped(ks[1..], Step(st, ks[0]).value);
        }
      }
    }
  }

  /** Nothing after the first rule is read. */
  lemma {:induction false} StopsAtRule(ks: seq<Kind>, after: seq<Kind>, st: St)
    ensures Body(ks + [Stop] + after, st) == Body(ks + [Stop], st)
    decreases |ks|
  {
    if |ks| == 0 {
      assert (ks + [Stop] + after)[0] == Stop;
      assert (ks + [Stop])[0] == Stop;
    } else {
      assert (ks + [Stop] + after)[0] == ks[0] && (ks + [Stop])[0] == ks[0];
      assert (ks + [Stop] + after)[1..] == ks[1..] + [Stop] + after;
      assert (ks + [Stop])[1..] == ks[1..] + [Stop];
      if !ks[0].Stop? && Step(st, ks[0]).Ok? {
        StopsAtRule(ks[1..], after, Step(st, ks[0]).value);
      }
    }
  }

  /** A section line or an `$end` before any header (blank lines aside)
      raises UnboundLocalError. */
  lemma {:induction false} NoHeaderFails(pre: seq<Kind>, k: Kind, tail: seq<Kind>, st: St)
    requires st.header.None?
    requires forall m :: 0 <= m < |pre| ==> pre[m].Blank?
    requires k.Content? || k.End?
    ensures Body(pre + [k] + tail, st) == Err(UnboundLocalError)
    decreases |pre|
  {
    if |pre| == 0 {
      assert (pre + [k] + tail)[0] == k;
    } else {
      assert (pre + [k] + tail)[0] == pre[0];
      assert (pre + [k] + tail)[1..] == pre[1..] + [k] + tail;
      NoHeaderFails(pre[1..], k, tail, st);
    }
  }

  /** Every bound section name is a key of the dictionary. */
  predicate Open(st: St)
  {
    st.header.Some? ==> st.header.value in Keys(st.d)
  }

  /** A step never looks up a missing key, and keeps the open section in
      the dictionary. */
  lemma StepOpen(st: St, k: Kind)
    requires Open(st)
    ensures Step(st, k) != Err(KeyError)
    ensures Step(st, k).Ok? ==> Open(Step(st, k).value)
  {
    if st.header.Some? {
      GetMeaning(st.d, st.header.value);
    }
    if k.Header? {
      SetKeys(st.d, k.name, Lines([]));
    } else if st.header.Some? {
      var h := st.header.value;
      var cur := Get(st.d, h);
      if cur.Some? {
        SetKeys(st.d, h, Text(Join("\n", if cur.value.Lines? then cur.value.lines else Chars(cur.value.text))));
        if cur.value.Lines? {
          SetKeys(st.d, h, Lines(cur.value.lines + [if k.Content? then k.line else ""]));
        }
      }
    }
  }

  /** The dictionary lookups of the loop never raise KeyError. */
  lemma {:induction false} NeverKeyError(ks: seq<Kind>, st: St)
    requires Open(st)
    ensures Body(ks, st) != Err(KeyError)
    decreases |ks|
  {
    if |ks| > 0 && !ks[0].Stop? {
      StepOpen(st, ks[0]);
      if Step(st, ks[0]).Ok? {
        NeverKeyError(ks[1..], Step(st, ks[0]).value);
      }
    }
  }

  /** A header binds its name and resets its section to an empty list; a
      name seen before keeps its place, a new one goes last, and the
      other sections are untouched. */
  lemma HeaderResets(st: St, h: string, k: string)
    ensures Step(st, Header(h)).Ok?
    ensures Step(st, Header(h)).value.header == Some(h)
    ensures Keys(Step(st, Header(h)).value.d) == if h in Keys(st.d) then Keys(st.d) else Keys(st.d) + [h]
    ensures Get(Step(st, Header(h)).value.d, h) == Some(Lines([]))
    ensures k != h ==> Get(Step(st, Header(h)).value.d, k) == Get(st.d, k)
  {
    SetKeys(st.d, h, Lines([]));
    GetSetSame(st.d, h, Lines([]));
    if k != h {
      GetSetOther(st.d, h, Lines([]), k);
    }
  }

  /** The first line containing `User input:` is found. */
  lemma FindAfterHead(head: seq<string>, open: string, rest: seq<string>)
    requires forall m :: 0 <= m < |head| ==> !Contains(head[m], "User input:")
    requires Contains(open, "User input:")
    ensures FindUserInput(head + [open] + rest, 0) == Some(|head|)
  {
    var lines := head + [open] + rest;
    assert lines[|head|] == open;
    assert forall m :: 0 <= m < |head| ==> lines[m] == head[m];
  }

  /** Once the `----` line has been checked, the sections are read from
      the line after it. */
  lemma ParseAfterRule(head: seq<string>, open: string, rule: string, body: seq<string>)
    requires forall m :: 0 <= m < |head| ==> !Contains(head[m], "User input:")
    requires Contains(open, "User input:") && Contains(rule, "----") && |body| > 0
    ensures ParseSpec(head + [open, rule] + body) == Body(LexAll(body), Init)
  {
    var lines := head + [open, rule] + body;
    assert lines == head + [open] + ([rule] + body);
    FindAfterHead(head, open, [rule] + body);
    var i := |head|;
    assert lines[i + 1] == rule;
    assert lines[i + 2..] == body;
  }

  /** Sections with distinct names, blank lines anywhere, then the rule:
      each section becomes its name with its lines joined by newlines, in
      the order read, and nothing after the rule is read. */
  lemma BodyWellFormed(ks: seq<Kind>, secs: seq<Sec>, after: seq<Kind>)
    requires NoBlanks(ks) == Blocks(secs) + [Stop] + after
    requires DistinctNames(secs)
    ensures Body(ks, Init) == Ok(Expected(secs))
  {
    BlanksDropped(ks, Init);
    ConsAssoc(Blocks(secs), Stop, after, [Stop] + after);
    SectionsRead(secs, [Stop] + after, Init);
    var fin := AfterSecs(Init, secs);
    assert Body([Stop] + after, fin) == Ok(fin.d);
    AfterSecsAppends(Init, secs);
    assert [] + Expected(secs) == Expected(secs);
  }

  /** An echoed input of the usual shape: after the first `User input:`
      line and its `----` line come sections with distinct names, with
      blank lines anywhere, then the rule. Each section becomes its name
      with its lines joined by newlines, in the order read, and nothing
      after the rule is read. */
  lemma ParseWellFormed(head: seq<string>, open: string, rule: string, body: seq<string>,
                        secs: seq<Sec>, after: seq<Kind>)
    requires forall m :: 0 <= m < |head| ==> !Contains(head[m], "User input:")
    requires Contains(open, "User input:") && Contains(rule, "----")
    requires NoBlanks(LexAll(body)) == Blocks(secs) + [Stop] + after
    requires DistinctNames(secs)
    ensures ParseSpec(head + [open, rule] + body) == Ok(Expected(secs))
  {
    assert |body| > 0;
    ParseAfterRule(head, open, rule, body);
    BodyWellFormed(LexAll(body), secs, after);
  }

  /** The line after the first `User input:` line must contain `----`,
      whatever follows. */
  lemma ParseNoDashes(head: seq<string>, open: string, rule: string, rest: seq<string>)
    requires forall m :: 0 <= m < |head| ==> !Contains(head[m], "User input:")
    requires Contains(open, "User input:") && !Contains(rule, "----")
    ensures ParseSpec(head + [open, rule] + rest) == Err(AssertionError)
  {
    var lines := head + [open, rule] + rest;
    assert lines == head + [open] + ([rule] + rest);
    FindAfterHead(head, open, [rule] + rest);
    assert lines[|head| + 1] == rule;
  }

  // ---------------------------------------------------------------------
  // The name of the next input file

  /** The length of the longest run of digits that starts `s`. */
  function DigitPrefix(s: string): (r: nat)
    ensures r <= |s|
    ensures forall j :: 0 <= j < r ==> IsDigit(s[j])
    ensures r < |s| ==> !IsDigit(s[r])
    decreases |s|
  {
    if |s| > 0 && IsDigit(s[0]) then DigitPrefix(s[1..]) + 1 else 0
  }

  /** The length of the longest run of digits that ends `s`. */
  function DigitSuffix(s: string): (r: nat)
    ensures r <= |s|
    ensures forall j :: |s| - r <= j < |s| ==> IsDigit(s[j])
    ensures r < |s| ==> !IsDigit(s[|s| - r - 1])
    decreases |s|
  {
    if |s| > 0 && IsDigit(s[|s| - 1]) then DigitSuffix(s[..|s| - 1]) + 1 else 0
  }

  /** The group of `re.search(r'opt(\d*).out$', name)` for a name ending
      in `.out`: the match must end the name, so its `.` is the dot of
      `.out` and its digits are the run of digits just before it; the
      `opt` in front of them is then the only possible start. Without it
      the search gives None, whose `.groups()` raises AttributeError. */
  function NumStr(name: string): (r: Result<string>)
    requires EndsWith(name, ".out")
    ensures r.Ok? ==> AllDigits(r.value)
    ensures r.Err? ==> r.exc == AttributeError
  {
    var stem := name[..|name| - 4];
    var n := DigitSuffix(stem);
    var pre := stem[..|stem| - n];
    var d := stem[|stem| - n..];
    assert forall j :: 0 <= j < |d| ==> d[j] == stem[|stem| - n + j];
    if EndsWith(pre, "opt") then Ok(d) else Err(AttributeError)
  }

  /** The number of the next optimization: 2 after a bare `opt`, one more
      than the number after `opt` otherwise. A name not ending in `.out`
      fails the assertion. */
  function OptNumber(name: string): (r: Result<int>)
    ensures r.Ok? ==> r.value >= 1
    ensures r.Err? ==> r.exc in {AssertionError, AttributeError}
  {
    if !EndsWith(name, ".out") then Err(AssertionError)
    else
      match NumStr(name)
      case Err(e) => Err(e)
      case Ok(d) => if d == "" then Ok(2) else Ok(DigitsValue(d) + 1)
  }

  /** `re.sub(r'opt\d*', rep, s)`: every `opt` with the digits after it,
      scanned from the left, becomes `rep`. */
  function SubOpt(s: string, rep: string): string
    decreases |s|
  {
    if |s| == 0 then s
    else if OptAt(s, 0) then
      var t := s[3..];
      rep + SubOpt(t[DigitPrefix(t)..], rep)
    else [s[0]] + SubOpt(s[1..], rep)
  }

  /** `opt` starts at position `k` of `s`. */
  predicate OptAt(s: string, k: nat)
  {
    k + 3 <= |s| && s[k] == 'o' && s[k + 1] == 'p' && s[k + 2] == 't'
  }

  /** `opt` followed by the number `k`. */
  function Rep(k: int): string
  {
    "opt" + IntToString(k)
  }

  /** An output name: `p`, then `opt`, the digits `d` and `.out`. */
  function OutName(p: string, d: string): string
  {
    p + "opt" + d + ".out"
  }

  /** An input name: `p`, then `opt`, the number `k` and `.in`. */
  function InName(p: string, k: int): string
  {
    p + Rep(k) + ".in"
  }

  /** The input file name as the script forms it. */
  function InputName(name: string): Result<string>
  {
    match OptNumber(name)
    case Err(e) => Err(e)
    case Ok(k) => Ok(ReplaceAll(SubOpt(name, Rep(k)), ".out", ".in"))
  }

  /** The input file name the module documentation describes: only the
      final `opt` number is advanced, and only the final `.out` becomes
      `.in`. */
  function NextInputName(name: string): Result<string>
  {
    match OptNumber(name)
    case Err(e) => Err(e)
    case Ok(k) =>
      var stem := name[..|name| - 4];
      var pre := stem[..|stem| - DigitSuffix(stem)];
      Ok(InName(pre[..|pre| - 3], k))
  }

  /** The name split as `opt`, its digits and `.out` is read back. */
  lemma NumStrOf(p: string, d: string)
    requires AllDigits(d)
    ensures EndsWith(OutName(p, d), ".out")
    ensures NumStr(OutName(p, d)) == Ok(d)
    ensures NextInputName(OutName(p, d)) == Ok(InName(p, OptNumber(OutName(p, d)).value))
  {
    var name := OutName(p, d);
    var stem := name[..|name| - 4];
    assert stem == p + "opt" + d;
    DigitSuffixOf(p + "opt", d);
    assert stem[|stem| - |d|..] == d;
    assert stem[..|stem| - |d|] == p + "opt";
  }

  lemma {:induction false} DigitSuffixOf(a: string, d: string)
    requires |a| > 0 && !IsDigit(a[|a| - 1]) && AllDigits(d)
    ensures DigitSuffix(a + d) == |d|
    decreases |d|
  {
    if |d| == 0 {
      assert a + d == a;
    } else {
      var s := a + d;
      assert s[..|s| - 1] == a + d[..|d| - 1];
      DigitSuffixOf(a, d[..|d| - 1]);
    }
  }

  lemma TwoText()
    ensures IntToString(2) == "2" && Rep(2) == "opt2"
  {
  }

  /** A bare `opt` is followed by optimization 2. */
  lemma BareOpt(p: string)
    ensures OptNumber(OutName(p, "")) == Ok(2)
    ensures NextInputName(OutName(p, "")) == Ok(InName(p, 2))
  {
    NumStrOf(p, "");
  }

  /** `optN` is followed by optimization N + 1, whose input name carries
      that number; the names go on `opt`, `opt2`, `opt3`, .... */
  lemma NumberedOpt(p: string, n: nat)
    ensures OptNumber(OutName(p, NatToString(n))) == Ok(n + 1)
    ensures NextInputName(OutName(p, NatToString(n))) == Ok(InName(p, n + 1))
  {
    NumStrOf(p, NatToString(n));
    DigitsValueOfNatToString(n);
  }

  lemma {:induction false} DigitPrefixOf(d: string, rest: string)
    requires AllDigits(d) && |rest| > 0 && !IsDigit(rest[0])
    ensures DigitPrefix(d + rest) == |d|
    decreases |d|
  {
    if |d| == 0 {
      assert d + rest == rest;
    } else {
      assert (d + rest)[1..] == d[1..] + rest;
      DigitPrefixOf(d[1..], rest);
    }
  }

  /** A front part in which no `opt` starts is copied unchanged. */
  lemma {:induction false} SubOptSkip(p: string, x: string, rep: string)
    requires forall k :: 0 <= k < |p| ==> !OptAt(p + x, k)
    ensures SubOpt(p + x, rep) == p + SubOpt(x, rep)
    decreases |p|
  {
    if |p| == 0 {
      assert p + x == x;
    } else {
      var s := p + x;
      assert !OptAt(s, 0);
      assert s[1..] == p[1..] + x;
      forall k | 0 <= k < |p[1..]| ensures !OptAt(p[1..] + x, k) {
        assert !OptAt(s, k + 1);
      }
      SubOptSkip(p[1..], x, rep);
    }
  }

  /** The final `opt`, its digits and `.out` become `rep` and `.out`. */
  lemma SubOptTail(d: string, rep: string)
    requires AllDigits(d)
    ensures SubOpt("opt" + d + ".out", rep) == rep + ".out"
  {
    var s := "opt" + d + ".out";
    var t := d + ".out";
    assert s[3..] == t by {
      assert s == "opt" + t;
    }
    assert OptAt(s, 0);
    DigitPrefixOf(d, ".out");
    assert t[|d|..] == ".out";
    SubOptOut(rep);
  }

  lemma SubOptOut(rep: string)
    ensures SubOpt(".out", rep) == ".out"
  {
    SubOptSkip(".out", "", rep);
    assert ".out" + "" == ".out";
  }

  /** No `opt` starts inside `p` when `p` holds none and is followed by
      `o`. */
  lemma NoOptInFront(p: string, tail: string)
    requires !Contains(p, "opt") && |tail| > 0 && tail[0] == 'o'
    ensures forall j :: 0 <= j < |p| ==> !OptAt(p + tail, j)
  {
    var s := p + tail;
    forall j | 0 <= j < |p| ensures !OptAt(s, j) {
      if j + 3 <= |p| {
        assert !OccursAt(p, "opt", j);
        assert s[j..j + 3] == p[j..j + 3];
      } else {
        assert s[|p|] == 'o';
      }
    }
  }

  /** No `.out` starts inside `p` when `p` holds none and is followed by
      `op`. */
  lemma NoOutInFront(p: string, tail: string)
    requires !Contains(p, ".out") && |tail| > 1 && tail[0] == 'o' && tail[1] == 'p'
    ensures forall j :: 0 <= j < |p| ==> !OccursAt(p + tail, ".out", j)
  {
    var s := p + tail;
    forall j | 0 <= j < |p| ensures !OccursAt(s, ".out", j) {
      if j + 4 <= |p| {
        assert !OccursAt(p, ".out", j);
        assert s[j..j + 4] == p[j..j + 4];
      } else if j + 4 <= |s| {
        assert s[|p|] == 'o' && s[|p| + 1] == 'p';
        assert s[j..j + 4][|p| - j] == s[|p|];
        if |p| - j == 1 {
          assert s[j..j + 4][2] == s[|p| + 1];
        }
      }
    }
  }

  /** No `.out` starts inside `opt` and a number, whatever follows. */
  lemma NoOutInRep(k: int, x: string)
    ensures forall j :: 0 <= j < |Rep(k)| ==> !OccursAt(Rep(k) + x, ".out", j)
  {
    var rep := Rep(k);
    IntToStringHasNoSeparator(k, '.');
    forall j | 0 <= j < |rep| ensures !OccursAt(rep + x, ".out", j) {
      assert rep[j] != '.';
      assert (rep + x)[j] == rep[j];
      if j + 4 <= |rep + x| {
        assert (rep + x)[j..j + 4][0] == (rep + x)[j];
      }
    }
  }

  /** `re.sub` on a name whose only `opt` is the final one. */
  lemma SubOptName(p: string, d: string, rep: string)
    requires AllDigits(d) && !Contains(p, "opt")
    ensures SubOpt(OutName(p, d), rep) == p + (rep + ".out")
  {
    var tail := "opt" + d + ".out";
    assert OutName(p, d) == p + tail;
    NoOptInFront(p, tail);
    SubOptSkip(p, tail, rep);
    SubOptTail(d, rep);
  }

  /** `.replace('.out', '.in')` on a name whose only `.out` is the final
      one. */
  lemma ReplaceName(p: string, k: int)
    requires !Contains(p, ".out")
    ensures ReplaceAll(p + (Rep(k) + ".out"), ".out", ".in") == InName(p, k)
  {
    var out := Rep(k) + ".out";
    NoOutInFront(p, out);
    ReplaceSkip(p, out, ".out", ".in");
    NoOutInRep(k, ".out");
    ReplaceSkip(Rep(k), ".out", ".out", ".in");
    ReplaceWhole(".out", ".in");
    assert p + (Rep(k) + ".in") == InName(p, k);
  }

  lemma InputNameIs(name: string, k: int)
    requires OptNumber(name) == Ok(k)
    ensures InputName(name) == Ok(ReplaceAll(SubOpt(name, Rep(k)), ".out", ".in"))
  {
  }

  /** For a name with one `opt` and one `.out`, both at the end, the
      script's substitutions advance that number, as intended. */
  lemma AsWrittenAgrees(p: string, d: string)
    requires AllDigits(d) && !Contains(p, "opt") && !Contains(p, ".out")
    ensures InputName(OutName(p, d)) == NextInputName(OutName(p, d))
  {
    var name := OutName(p, d);
    NumStrOf(p, d);
    var k := OptNumber(name).value;
    SubOptName(p, d, Rep(k));
    ReplaceName(p, k);
    InputNameIs(name, k);
  }

  /** `re.sub` on `opt`, then `q`, then `opt.out`: both `opt`s become
      `rep`. */
  lemma LeadingOpt(q: string, rep: string)
    requires !Contains(q, "opt") && (|q| == 0 || !IsDigit(q[0]))
    ensures SubOpt(OutName("opt" + q, ""), rep) == rep + (q + (rep + ".out"))
  {
    var name := OutName("opt" + q, "");
    var t := OutName(q, "");
    assert name[3..] == t;
    assert OptAt(name, 0);
    assert t[0] == if |q| > 0 then q[0] else 'o';
    assert DigitPrefix(t) == 0;
    assert t[0..] == t;
    SubOptName(q, "", rep);
  }

  /** `.replace('.out', '.in')` after `LeadingOpt`. */
  lemma ReplaceAfterRep(q: string, k: int)
    requires !Contains(q, ".out")
    ensures ReplaceAll(Rep(k) + (q + (Rep(k) + ".out")), ".out", ".in") == Rep(k) + InName(q, k)
  {
    var x := q + (Rep(k) + ".out");
    NoOutInRep(k, x);
    ReplaceSkip(Rep(k), x, ".out", ".in");
    ReplaceName(q, k);
  }

  /** `re.sub` advances every `opt` in the name, not only the final one:
      for `q` = `imize_`, `optimize_opt.out` is followed by
      `opt2imize_opt2.in`, where the documented name is
      `optimize_opt2.in`. */
  lemma AsWrittenRenamesEveryOpt(q: string)
    requires !Contains(q, "opt") && !Contains(q, ".out") && (|q| == 0 || !IsDigit(q[0]))
    ensures InputName(OutName("opt" + q, "")) == Ok(Rep(2) + InName(q, 2))
    ensures NextInputName(OutName("opt" + q, "")) == Ok(InName("opt" + q, 2))
    ensures Rep(2) + InName(q, 2) != InName("opt" + q, 2)
  {
    var name := OutName("opt" + q, "");
    BareOpt("opt" + q);
    InputNameIs(name, 2);
    LeadingOpt(q, Rep(2));
    ReplaceAfterRep(q, 2);
    RenamedDiffers(q);
  }

  lemma RenamedDiffers(q: string)
    requires |q| == 0 || !IsDigit(q[0])
    ensures Rep(2) + InName(q, 2) != InName("opt" + q, 2)
  {
    TwoText();
    assert (Rep(2) + InName(q, 2))[3] == '2';
    assert InName("opt" + q, 2)[3] == if |q| > 0 then q[0] else 'o';
  }
}
