/** fix_molden.py: splitting a Molden file into its `[...]` sections, and
    the terminator printed after each section. */
module FixMolden {
  import opened Py
  import opened Strs
  import opened ODict

  /** Section name (the stripped header line) to the section's lines, in
      the order the names were first seen. */
  type Sections = Dict<string, seq<string>>

  /** A line that opens a section: its first character is `[`. */
  predicate IsHeader(line: string)
  {
    |line| > 0 && line[0] == '['
  }

  // ---------------------------------------------------------------------
  // Reading the sections

  /** The loop's state: the name `k` of the section last opened (unset
      before the first header) and the `sections` dictionary. */
  datatype St = St(key: Option<string>, sections: Sections)

  const Init := St(None, [])

  /** One line of the loop in `get_molden_file_sections`. A header sets
      `k` and resets its section to an empty list (the inner `while` never
      runs, since the line starts with `[`). Any other line, an empty one
      through the `IndexError` handler and a non-empty one through the
      `else` branch, is appended to section `k`; with no `k` yet that
      raises UnboundLocalError. */
  function Step(st: St, line: string): Result<St>
  {
    if IsHeader(line) then
      var k := Strip(line);
      Ok(St(Some(k), Set(st.sections, k, [])))
    else if st.key.None? then Err(UnboundLocalError)
    else
      match Get(st.sections, st.key.value)
      case None => Err(KeyError)
      case Some(v) => Ok(St(st.key, Set(st.sections, st.key.value, v + [line])))
  }

  /** The state after the loop has read `lines`, or the exception it
      raised. */
  function Run(lines: seq<string>): Result<St>
    decreases |lines|
  {
    if |lines| == 0 then Ok(Init)
    else
      match Run(lines[..|lines| - 1])
      case Err(e) => Err(e)
      case Ok(st) => Step(st, lines[|lines| - 1])
  }

  /** What `get_molden_file_sections` returns for the file's lines. */
  function SectionsOf(lines: seq<string>): Result<Sections>
  {
    match Run(lines)
    case Err(e) => Err(e)
    case Ok(st) => Ok(st.sections)
  }

  /** Once the loop has raised, reading more lines does not change that. */
  lemma {:induction false} RunErrSticks(lines: seq<string>, j: nat)
    requires j <= |lines|
    requires Run(lines[..j]).Err?
    ensures Run(lines) == Run(lines[..j])
    decreases |lines|
  {
    if j < |lines| {
      var init := lines[..|lines| - 1];
      assert init[..j] == lines[..j];
      RunErrSticks(init, j);
    } else {
      assert lines[..j] == lines;
    }
  }

  /** `get_molden_file_sections`, over the lines of the file. */
  method GetMoldenFileSections(lines: seq<string>) returns (r: Result<Sections>)
    ensures r == SectionsOf(lines)
  {
    var sections: Sections := [];
    var k: Option<string> := None;
    var i := 0;
    while i < |lines|
      invariant 0 <= i <= |lines|
      invariant Run(lines[..i]) == Ok(St(k, sections))
      decreases |lines| - i
    {
      var line := lines[i];
      assert lines[..i + 1][..i] == lines[..i];
      if |line| == 0 {
        // `line[0]` raised IndexError: the handler appends the line.
        if k.None? {
          RunErrSticks(lines, i + 1);
          return Err(UnboundLocalError);
        }
        var cur := Get(sections, k.value);
        if cur.None? {
          RunErrSticks(lines, i + 1);
          return Err(KeyError);
        }
        sections := Set(sections, k.value, cur.value + [line]);
      } else if line[0] == '[' {
        k := Some(Strip(line));
        sections := Set(sections, k.value, []);
      } else {
        if k.None? {
          RunErrSticks(lines, i + 1);
          return Err(UnboundLocalError);
        }
        var cur := Get(sections, k.value);
        if cur.None? {
          RunErrSticks(lines, i + 1);
          return Err(KeyError);
        }
        sections := Set(sections, k.value, cur.value + [line]);
      }
      i := i + 1;
    }
    assert lines[..i] == lines;
    r := Ok(sections);
  }

  // ---------------------------------------------------------------------
  // What the sections hold

  /** The position of the last header of `p`. */
  function LastHeader(p: seq<string>): (r: Option<nat>)
    ensures r.Some? ==> r.value < |p|
    decreases |p|
  {
    if |p| == 0 then None
    else if IsHeader(p[|p| - 1]) then Some(|p| - 1)
    else LastHeader(p[..|p| - 1])
  }

  /** `LastHeader` is a header, no header follows it, and without one
      there is no header at all. */
  lemma {:induction false} LastHeaderFacts(p: seq<string>)
    ensures LastHeader(p).Some? ==> IsHeader(p[LastHeader(p).value])
    ensures LastHeader(p).Some? ==> forall j :: LastHeader(p).value < j < |p| ==> !IsHeader(p[j])
    ensures LastHeader(p).None? ==> forall j :: 0 <= j < |p| ==> !IsHeader(p[j])
    decreases |p|
  {
    if |p| > 0 && !IsHeader(p[|p| - 1]) {
      LastHeaderFacts(p[..|p| - 1]);
    }
  }

  /** The name of the section open after `p`. */
  function OpenName(p: seq<string>): Option<string>
  {
    match LastHeader(p)
    case None => None
    case Some(i) => Some(Strip(p[i]))
  }

  predicate HeaderNamed(line: string, name: string)
  {
    IsHeader(line) && Strip(line) == name
  }

  /** The position of the last header of `p` named `name`. */
  function LastNamed(p: seq<string>, name: string): (r: Option<nat>)
    ensures r.Some? ==> r.value < |p|
    decreases |p|
  {
    if |p| == 0 then None
    else if HeaderNamed(p[|p| - 1], name) then Some(|p| - 1)
    else LastNamed(p[..|p| - 1], name)
  }

  /** `LastNamed` is a header with that name, and no later header has it;
      without one no header has it. */
  lemma {:induction false} LastNamedFacts(p: seq<string>, name: string)
    ensures LastNamed(p, name).Some? ==> HeaderNamed(p[LastNamed(p, name).value], name)
    ensures LastNamed(p, name).Some? ==> forall j :: LastNamed(p, name).value < j < |p| ==> !HeaderNamed(p[j], name)
    ensures LastNamed(p, name).None? ==> forall j :: 0 <= j < |p| ==> !HeaderNamed(p[j], name)
    decreases |p|
  {
    if |p| > 0 && !HeaderNamed(p[|p| - 1], name) {
      LastNamedFacts(p[..|p| - 1], name);
    }
  }

  /** The position of the first header after position `i`, or `|p|`. */
  function NextHeader(p: seq<string>, i: nat): (r: nat)
    requires i < |p|
    ensures i < r <= |p|
    decreases |p| - i
  {
    if i + 1 == |p| then |p|
    else if IsHeader(p[i + 1]) then i + 1
    else NextHeader(p, i + 1)
  }

  /** `NextHeader` is a header or the end, and no header comes between. */
  lemma {:induction false} NextHeaderFacts(p: seq<string>, i: nat)
    requires i < |p|
    ensures NextHeader(p, i) < |p| ==> IsHeader(p[NextHeader(p, i)])
    ensures forall j :: i < j < NextHeader(p, i) ==> !IsHeader(p[j])
    decreases |p| - i
  {
    if i + 1 < |p| && !IsHeader(p[i + 1]) {
      NextHeaderFacts(p, i + 1);
    }
  }

  /** The section `name` should hold after `p`: nothing if no header
      has that name, and otherwise the lines strictly between its last
      header and the next header (or the end). */
  function Expected(p: seq<string>, name: string): Option<seq<string>>
  {
    match LastNamed(p, name)
    case None => None
    case Some(i) => Some(p[i + 1..NextHeader(p, i)])
  }

  lemma NextHeaderIs(p: seq<string>, i: nat, r: nat)
    requires i < r <= |p|
    requires r < |p| ==> IsHeader(p[r])
    requires forall j :: i < j < r ==> !IsHeader(p[j])
    ensures NextHeader(p, i) == r
  {
    NextHeaderFacts(p, i);
  }

  lemma LastNamedSnoc(p: seq<string>, x: string, name: string)
    ensures LastNamed(p + [x], name) == if HeaderNamed(x, name) then Some(|p|) else LastNamed(p, name)
  {
    assert (p + [x])[..|p|] == p;
  }

  lemma LastHeaderSnoc(p: seq<string>, x: string)
    ensures LastHeader(p + [x]) == if IsHeader(x) then Some(|p|) else LastHeader(p)
  {
    assert (p + [x])[..|p|] == p;
  }

  /** A section that ended before the last line of `p` is not changed by
      a further line. */
  lemma ClosedSectionKept(p: seq<string>, x: string, i: nat)
    requires i < |p|
    requires NextHeader(p, i) < |p| || IsHeader(x)
    ensures NextHeader(p + [x], i) == NextHeader(p, i)
    ensures (p + [x])[i + 1..NextHeader(p + [x], i)] == p[i + 1..NextHeader(p, i)]
  {
    var n := NextHeader(p, i);
    NextHeaderFacts(p, i);
    NextHeaderIs(p + [x], i, n);
  }

  /** A header opens its section empty and leaves the others alone. */
  lemma HeaderStep(p: seq<string>, x: string, st: St)
    requires IsHeader(x)
    requires forall name :: Get(st.sections, name) == Expected(p, name)
    ensures Step(st, x).Ok?
    ensures Step(st, x).value.key == OpenName(p + [x])
    ensures forall name :: Get(Step(st, x).value.sections, name) == Expected(p + [x], name)
  {
    var h := Strip(x);
    var d' := Set(st.sections, h, []);
    LastHeaderSnoc(p, x);
    forall name
      ensures Get(d', name) == Expected(p + [x], name)
    {
      LastNamedSnoc(p, x, name);
      if name == h {
        GetSetSame(st.sections, h, []);
        NextHeaderIs(p + [x], |p|, |p| + 1);
        assert (p + [x])[|p| + 1..|p| + 1] == [];
      } else {
        GetSetOther(st.sections, h, [], name);
        var l := LastNamed(p, name);
        if l.Some? {
          ClosedSectionKept(p, x, l.value);
        }
      }
    }
  }

  /** The section opened by the last header runs to the end of `p`. */
  lemma OpenSection(p: seq<string>, c: nat)
    requires LastHeader(p) == Some(c)
    ensures LastNamed(p, Strip(p[c])) == Some(c)
    ensures Expected(p, Strip(p[c])) == Some(p[c + 1..])
  {
    var open := Strip(p[c]);
    LastHeaderFacts(p);
    LastNamedFacts(p, open);
    assert HeaderNamed(p[c], open);
    var l := LastNamed(p, open).value;
    assert l >= c;
    assert l == c;
    NextHeaderIs(p, c, |p|);
    assert Expected(p, open) == Some(p[c + 1..NextHeader(p, c)]);
    assert p[c + 1..|p|] == p[c + 1..];
  }

  /** After a line that is not a header, the open section still runs to
      the end. */
  lemma OpenRunsOn(p: seq<string>, x: string, c: nat)
    requires !IsHeader(x)
    requires LastHeader(p) == Some(c)
    ensures NextHeader(p + [x], c) == |p| + 1
  {
    var q := p + [x];
    LastHeaderSnoc(p, x);
    LastHeaderFacts(q);
    NextHeaderIs(q, c, |q|);
  }

  lemma ExpectedAt(p: seq<string>, name: string, i: nat)
    requires LastNamed(p, name) == Some(i)
    ensures Expected(p, name) == Some(p[i + 1..NextHeader(p, i)])
  {
  }

  lemma SnocTail<T>(p: seq<T>, x: T, c: nat)
    requires c < |p|
    ensures (p + [x])[c + 1..|p| + 1] == p[c + 1..] + [x]
  {
  }

  /** A line that is not a header goes to the end of the open section. */
  lemma ContentOpen(p: seq<string>, x: string, c: nat)
    requires !IsHeader(x)
    requires LastHeader(p) == Some(c)
    ensures (p + [x])[c] == p[c]
    ensures Expected(p + [x], Strip(p[c])) == Some(p[c + 1..] + [x])
  {
    var q := p + [x];
    var open := Strip(p[c]);
    assert q[c] == p[c];
    LastNamedSnoc(p, x, open);
    OpenSection(p, c);
    assert LastNamed(q, open) == Some(c);
    ExpectedAt(q, open, c);
    OpenRunsOn(p, x, c);
    SnocTail(p, x, c);
  }

  /** ... and leaves every other section as it was. */
  lemma ContentOther(p: seq<string>, x: string, c: nat, name: string)
    requires !IsHeader(x)
    requires LastHeader(p) == Some(c)
    requires name != Strip(p[c])
    ensures Expected(p + [x], name) == Expected(p, name)
  {
    LastNamedSnoc(p, x, name);
    var l := LastNamed(p, name);
    if l.Some? {
      LastHeaderFacts(p);
      LastNamedFacts(p, name);
      assert l.value <= c;
      assert Strip(p[l.value]) != Strip(p[c]);
      NextHeaderFacts(p, l.value);
      assert NextHeader(p, l.value) <= c;
      ClosedSectionKept(p, x, l.value);
    }
  }

  /** Any other line lengthens the open section and leaves the others
      alone. */
  lemma ContentStep(p: seq<string>, x: string, st: St)
    requires !IsHeader(x)
    requires st.key.Some? && st.key == OpenName(p)
    requires forall name :: Get(st.sections, name) == Expected(p, name)
    ensures Step(st, x).Ok?
    ensures Step(st, x).value.key == OpenName(p + [x])
    ensures forall name :: Get(Step(st, x).value.sections, name) == Expected(p + [x], name)
  {
    var c := LastHeader(p).value;
    var open := Strip(p[c]);
    OpenSection(p, c);
    ContentOpen(p, x, c);
    var v := p[c + 1..];
    var d' := Set(st.sections, open, v + [x]);
    assert Step(st, x) == Ok(St(st.key, d'));
    LastHeaderSnoc(p, x);
    forall name
      ensures Get(d', name) == Expected(p + [x], name)
    {
      if name == open {
        GetSetSame(st.sections, open, v + [x]);
      } else {
        GetSetOther(st.sections, open, v + [x], name);
        ContentOther(p, x, c, name);
      }
    }
  }

  /** The meaning of the loop: it fails, with UnboundLocalError, exactly
      when the first line is not a header; otherwise every header opens,
      or resets, the section named by its stripped text, the header line
      itself is not stored, and every other line, empty ones included, is
      kept in order in the section opened last before it. */
  lemma {:induction false} RunMeaning(p: seq<string>)
    ensures Run(p).Ok? <==> |p| == 0 || IsHeader(p[0])
    ensures Run(p).Err? ==> Run(p).exc == UnboundLocalError
    ensures Run(p).Ok? ==> Run(p).value.key == OpenName(p)
    ensures Run(p).Ok? ==> forall name :: Get(Run(p).value.sections, name) == Expected(p, name)
    decreases |p|
  {
    if |p| > 0 {
      var init := p[..|p| - 1];
      var x := p[|p| - 1];
      assert init + [x] == p;
      RunMeaning(init);
      if |init| == 0 {
        if IsHeader(x) {
          HeaderStep(init, x, Init);
        }
      } else if Run(init).Ok? {
        var st := Run(init).value;
        assert IsHeader(init[0]);
        LastHeaderFacts(init);
        assert LastHeader(init).Some?;
        if IsHeader(x) {
          HeaderStep(init, x, st);
        } else {
          ContentStep(init, x, st);
        }
      }
    }
  }

  /** The sections of a file whose first line is a header: for every
      name, what `Expected` says. */
  lemma SectionsMeaning(lines: seq<string>)
    ensures SectionsOf(lines).Ok? <==> |lines| == 0 || IsHeader(lines[0])
    ensures SectionsOf(lines).Err? ==> SectionsOf(lines).exc == UnboundLocalError
    ensures SectionsOf(lines).Ok? ==> forall name :: Get(SectionsOf(lines).value, name) == Expected(lines, name)
  {
    RunMeaning(lines);
  }

  // ---------------------------------------------------------------------
  // Section terminators and cleanups

  /** The basis-function headers, `bfs`. */
  const Bfs: seq<string> := ["[5D]", "[5D10F]", "[7F]", "[5D7F]", "[9G]"]

  const MoldenFormat: string := "[Molden Format]"

  /** `section_headers_no_newline`: `bfs` followed by
      `tuple('[Molden Format]')`, which is the one-character strings of
      that header rather than the header itself. */
  const NoNewlineHeaders: seq<string> := Bfs + Singles(MoldenFormat)

  /** `tuple(s)`: the characters of `s`, each as a string. */
  function Singles(s: string): (r: seq<string>)
    ensures |r| == |s|
    ensures forall i :: 0 <= i < |s| ==> r[i] == [s[i]]
    decreases |s|
  {
    if |s| == 0 then [] else [[s[0]]] + Singles(s[1..])
  }

  /** `section_end`: no terminator for the headers listed above, and a
      newline for every other one. */
  function SectionEnd(header: string): (r: string)
    ensures r == "" || r == "\n"
    ensures r == "" <==> header in Bfs || (|header| == 1 && header[0] in MoldenFormat)
  {
    SinglesMembers(header, MoldenFormat);
    if header in NoNewlineHeaders then "" else "\n"
  }

  /** The members of `tuple(s)` are the one-character strings of the
      characters of `s`. */
  lemma SinglesMembers(h: string, s: string)
    ensures h in Singles(s) <==> |h| == 1 && h[0] in s
  {
    if |h| == 1 && h[0] in s {
      var i :| 0 <= i < |s| && s[i] == h[0];
      assert Singles(s)[i] == h;
    }
  }

  /** As written, `[Molden Format]` itself is terminated by a newline. */
  lemma MoldenFormatGetsNewline()
    ensures SectionEnd(MoldenFormat) == "\n"
    ensures SectionEnd("[") == ""
  {
    assert |MoldenFormat| == 15;
    assert forall b :: b in Bfs ==> |b| <= 7;
    assert "["[0] == MoldenFormat[0];
  }

  /** The terminator with the header list the name
      `section_headers_no_newline` describes: the basis-function headers
      and `[Molden Format]`. */
  function IntendedSectionEnd(header: string): (r: string)
    ensures r == "" || r == "\n"
    ensures r == "" <==> header in Bfs || header == MoldenFormat
  {
    if header in Bfs + [MoldenFormat] then "" else "\n"
  }

  /** The two definitions differ exactly on `[Molden Format]` and its
      single characters: elsewhere they agree. */
  lemma IntendedDiffers(header: string)
    ensures IntendedSectionEnd(MoldenFormat) == "" && SectionEnd(MoldenFormat) == "\n"
    ensures header != MoldenFormat && !(|header| == 1 && header[0] in MoldenFormat)
      ==> IntendedSectionEnd(header) == SectionEnd(header)
  {
    MoldenFormatGetsNewline();
  }

  /** `cleanup_section_gto`. */
  function CleanupSectionGto(section: seq<string>): seq<string>
  {
    section
  }

  /** `cleanup_section_mo`. */
  function CleanupSectionMo(section: seq<string>): seq<string>
  {
    section
  }

  /** Neither cleanup changes its section. */
  lemma CleanupsAreIdentities(section: seq<string>)
    ensures CleanupSectionGto(section) == section
    ensures CleanupSectionMo(section) == section
  {
  }
}
