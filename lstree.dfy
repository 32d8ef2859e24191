/** `ls` as a tree (osmium/lstree.rb): for each root path, every entry
    below it is printed on its own line, indented by one space per level of
    depth; directories are shown as `[path]` with a leading `./`-style
    prefix removed, files by their base name. The file system is an abstract
    tree whose children are listed in the order the directory glob returns
    them. */
module LsTree {
  import opened Strs

  /** A directory entry: a file, or a directory with its children. */
  datatype Entry = File(name: string) | Dir(name: string, children: seq<Entry>)

  // ---------------------------------------------------------------------
  // munge: `s.gsub(/^\.+\//, '')`

  /** The number of `.` characters at the start of `s`. */
  function LeadingDots(s: string): (k: nat)
    ensures k <= |s|
    ensures forall i :: 0 <= i < k ==> s[i] == '.'
    ensures k < |s| ==> s[k] != '.'
    decreases |s|
  {
    if |s| > 0 && s[0] == '.' then 1 + LeadingDots(s[1..]) else 0
  }

  /** One match of `\.+\/` at the start of `s` removed, if there is one. */
  function DropDotsSlash(s: string): string
  {
    var k := LeadingDots(s);
    if 1 <= k < |s| && s[k] == '/' then s[k + 1..] else s
  }

  /** The regular expression's `^` matches at the start of the string and
      after every newline; `gsub` removes the match at each such position,
      scanning the text left to right without rescanning what it kept. */
  function Munge(s: string): (r: string)
    ensures |r| <= |s|
    decreases |s|
  {
    var t := DropDotsSlash(s);
    if '\n' in t then
      var k := FirstIndex(t, '\n');
      t[..k + 1] + Munge(t[k + 1..])
    else t
  }

  function FirstIndex(s: string, c: char): (k: nat)
    requires c in s
    ensures k < |s| && s[k] == c
    ensures forall i :: 0 <= i < k ==> s[i] != c
  {
    if s[0] == c then 0 else 1 + FirstIndex(s[1..], c)
  }

  /** On a one-line path, `munge` removes a single leading run of one or
      more dots followed by `/`, so `./a/b` becomes `a/b` and `../a` becomes
      `a`. */
  lemma MungeStripsDotsSlash(dots: nat, rest: string)
    requires dots >= 1 && '\n' !in rest
    ensures Munge(Repeat('.', dots) + "/" + rest) == rest
  {
    var s := Repeat('.', dots) + "/" + rest;
    LeadingDotsOfPrefix(dots, rest);
    assert s[dots + 1..] == rest;
  }

  lemma {:induction false} LeadingDotsOfPrefix(dots: nat, rest: string)
    ensures LeadingDots(Repeat('.', dots) + "/" + rest) == dots
    decreases dots
  {
    if dots > 0 {
      var s := Repeat('.', dots) + "/" + rest;
      assert s[1..] == Repeat('.', dots - 1) + "/" + rest;
      LeadingDotsOfPrefix(dots - 1, rest);
    }
  }

  /** A one-line path that does not start with dots and a slash is left
      alone: only a leading run is removed, nothing else. */
  lemma MungeKeepsOtherPaths(s: string)
    requires '\n' !in s
    requires !(1 <= LeadingDots(s) < |s| && s[LeadingDots(s)] == '/')
    ensures Munge(s) == s
  {
  }

  // ---------------------------------------------------------------------
  // The walk

  /** `File.join(dir, name)`: a separator is added unless `dir` already
      ends with one. */
  function JoinPath(dir: string, name: string): (r: string)
    ensures |r| > |name| && r[|r| - |name|..] == name
  {
    if |dir| > 0 && dir[|dir| - 1] == '/' then dir + name else dir + "/" + name
  }

  /** What is printed for an entry at path `path`: a directory in brackets
      with its munged path, a file by its base name. */
  function Label(path: string, e: Entry): string
  {
    if e.Dir? then "[" + Munge(path) + "]" else e.name
  }

  /** The number of lines one entry prints: its own line and, for a
      directory, its whole listing. */
  function Size(e: Entry): nat
    decreases e
  {
    1 + (if e.Dir? then Count(e.children) else 0)
  }

  /** The number of lines the listed entries print. */
  function Count(entries: seq<Entry>): nat
    decreases entries
  {
    if |entries| == 0 then 0 else Size(entries[0]) + Count(entries[1..])
  }

  /** The lines one iteration of `loop(path, indent)` prints for the entry
      `e` of `path`: its own line, then (for a directory) its own listing
      one level deeper. */
  function Block(path: string, e: Entry, indent: nat): (r: seq<string>)
    ensures |r| == Size(e)
    decreases e
  {
    var ff := JoinPath(path, e.name);
    [Repeat(' ', indent) + Label(ff, e)] + (if e.Dir? then Walk(ff, e.children, indent + 1) else [])
  }

  /** The lines `loop(path, indent)` prints for the listed `entries` of
      `path`, entry by entry. */
  function Walk(path: string, entries: seq<Entry>, indent: nat): (r: seq<string>)
    ensures |r| == Count(entries)
    decreases entries
  {
    if |entries| == 0 then [] else Block(path, entries[0], indent) + Walk(path, entries[1..], indent)
  }

  /** Every line starts with `indent` spaces. */
  predicate Indented(lines: seq<string>, indent: nat)
  {
    forall j :: 0 <= j < |lines| ==> |lines[j]| >= indent && lines[j][..indent] == Repeat(' ', indent)
  }

  lemma IndentedConcat(a: seq<string>, b: seq<string>, indent: nat)
    requires Indented(a, indent) && Indented(b, indent)
    ensures Indented(a + b, indent)
  {
    forall j | 0 <= j < |a + b| ensures |(a + b)[j]| >= indent && (a + b)[j][..indent] == Repeat(' ', indent) {
      if j < |a| { assert (a + b)[j] == a[j]; } else { assert (a + b)[j] == b[j - |a|]; }
    }
  }

  lemma IndentedDeeper(lines: seq<string>, indent: nat)
    requires Indented(lines, indent + 1)
    ensures Indented(lines, indent)
  {
    forall j | 0 <= j < |lines| ensures lines[j][..indent] == Repeat(' ', indent) {
      assert lines[j][..indent] == lines[j][..indent + 1][..indent];
    }
  }

  lemma IndentedLine(text: string, indent: nat)
    ensures Indented([Repeat(' ', indent) + text], indent)
  {
    assert (Repeat(' ', indent) + text)[..indent] == Repeat(' ', indent);
  }

  /** Every line of the walk starts with `indent` spaces. */
  lemma {:induction false} WalkIndented(path: string, entries: seq<Entry>, indent: nat)
    ensures Indented(Walk(path, entries, indent), indent)
    decreases entries
  {
    if |entries| > 0 {
      BlockIndented(path, entries[0], indent);
      WalkIndented(path, entries[1..], indent);
      IndentedConcat(Block(path, entries[0], indent), Walk(path, entries[1..], indent), indent);
    }
  }

  /** An entry's own line starts with `indent` spaces and the lines of its
      listing with at least one more. */
  lemma {:induction false} BlockIndented(path: string, e: Entry, indent: nat)
    ensures Indented(Block(path, e, indent), indent)
    ensures Indented(Block(path, e, indent)[1..], indent + 1)
    decreases e
  {
    var ff := JoinPath(path, e.name);
    var line := Repeat(' ', indent) + Label(ff, e);
    var below := if e.Dir? then Walk(ff, e.children, indent + 1) else [];
    assert Block(path, e, indent)[1..] == below;
    IndentedLine(Label(ff, e), indent);
    if e.Dir? {
      WalkIndented(ff, e.children, indent + 1);
    }
    IndentedDeeper(below, indent);
    IndentedConcat([line], below, indent);
  }

  /** The walk of two runs of entries is the walk of the first followed by
      the walk of the second. */
  lemma {:induction false} WalkAppend(path: string, a: seq<Entry>, b: seq<Entry>, indent: nat)
    ensures Walk(path, a + b, indent) == Walk(path, a, indent) + Walk(path, b, indent)
    decreases |a|
  {
    if |a| == 0 {
      assert a + b == b;
    } else {
      assert (a + b)[0] == a[0];
      assert (a + b)[1..] == a[1..] + b;
      WalkAppend(path, a[1..], b, indent);
    }
  }

  /** The entry at position `i` prints its block right after the lines
      of the entries before it. */
  lemma BlockAt(path: string, entries: seq<Entry>, indent: nat, i: nat)
    requires i < |entries|
    ensures Count(entries[..i]) + Size(entries[i]) == Count(entries[..i + 1]) <= Count(entries)
    ensures Walk(path, entries, indent)[Count(entries[..i])..Count(entries[..i + 1])] == Block(path, entries[i], indent)
  {
    var e := entries[i];
    var pre, post := entries[..i], entries[i + 1..];
    assert entries == entries[..i + 1] + post;
    assert entries[..i + 1] == pre + [e];
    assert Walk(path, [e], indent) == Block(path, e, indent) by {
      assert [e][1..] == [];
    }
    WalkAppend(path, pre, [e], indent);
    WalkAppend(path, entries[..i + 1], post, indent);
  }

  /** Pre-order, for the entry at any position `i`: its line sits right
      after the lines printed for the entries before it; the lines from
      there up to its next sibling's line are its listing, every one of them
      indented at least one step deeper than the entry itself. */
  lemma WalkPreOrder(path: string, entries: seq<Entry>, indent: nat, i: nat)
    requires i < |entries|
    ensures Count(entries[..i]) < Count(entries[..i + 1]) <= |Walk(path, entries, indent)|
    ensures Walk(path, entries, indent)[Count(entries[..i])]
      == Repeat(' ', indent) + Label(JoinPath(path, entries[i].name), entries[i])
    ensures Indented(Walk(path, entries, indent)[Count(entries[..i]) + 1..Count(entries[..i + 1])], indent + 1)
    ensures entries[i].Dir? ==>
      Walk(path, entries, indent)[Count(entries[..i]) + 1..Count(entries[..i + 1])]
      == Walk(JoinPath(path, entries[i].name), entries[i].children, indent + 1)
    ensures entries[i].File? ==> Count(entries[..i + 1]) == Count(entries[..i]) + 1
  {
    var e := entries[i];
    BlockAt(path, entries, indent, i);
    BlockIndented(path, e, indent);
    BlockShape(path, e, indent);
    SliceHead(Walk(path, entries, indent), Count(entries[..i]), Count(entries[..i + 1]), Block(path, e, indent));
  }

  /** A block is the entry's own line followed by its listing. */
  lemma BlockShape(path: string, e: Entry, indent: nat)
    ensures var ff := JoinPath(path, e.name);
            var blk := Block(path, e, indent);
            blk[0] == Repeat(' ', indent) + Label(ff, e)
            && blk[1..] == (if e.Dir? then Walk(ff, e.children, indent + 1) else [])
  {
  }

  lemma SliceHead(r: seq<string>, s: nat, next: nat, blk: seq<string>)
    requires s <= next <= |r| && r[s..next] == blk && |blk| > 0
    ensures r[s] == blk[0] && r[s + 1..next] == blk[1..]
  {
    assert r[s] == r[s..next][0];
  }

  /** A file's line is its indentation followed by its base name only. */
  lemma FileLine(path: string, name: string, rest: seq<Entry>, indent: nat)
    ensures Walk(path, [File(name)] + rest, indent)[0] == Repeat(' ', indent) + name
  {
  }

  // ---------------------------------------------------------------------
  // main

  /** The roots `main` processes: the arguments, or `.` when there are none. */
  function Roots(argv: seq<string>): (r: seq<string>)
    ensures |r| >= 1
    ensures |argv| > 0 ==> r == argv
  {
    if |argv| == 0 then ["."] else argv
  }

  /** The lines `process(f)` prints: the walk of `f`'s listing at indent 0.
      The root itself is never printed; a path that is a file or does not
      exist lists nothing. */
  function Process(fs: map<string, Entry>, f: string): seq<string>
  {
    if f in fs && fs[f].Dir? then Walk(f, fs[f].children, 0) else []
  }

  /** All lines printed for `roots`, root by root. */
  function Output(fs: map<string, Entry>, roots: seq<string>): (r: seq<string>)
    decreases |roots|
  {
    if |roots| == 0 then [] else Output(fs, roots[..|roots| - 1]) + Process(fs, roots[|roots| - 1])
  }

  /** Roots are independent and printed in argument order. */
  lemma {:induction false} OutputAppend(fs: map<string, Entry>, a: seq<string>, b: seq<string>)
    ensures Output(fs, a + b) == Output(fs, a) + Output(fs, b)
    decreases |b|
  {
    if |b| > 0 {
      assert (a + b)[..|a + b| - 1] == a + b[..|b| - 1];
      OutputAppend(fs, a, b[..|b| - 1]);
    } else {
      assert a + b == a;
    }
  }

  /** `FileTree#main`: processes each root in turn. */
  method TreeMain(fs: map<string, Entry>, argv: seq<string>) returns (out: seq<string>)
    ensures out == Output(fs, Roots(argv))
    ensures |argv| == 0 ==> out == Process(fs, ".")
  {
    var files := Roots(argv);
    out := [];
    var i := 0;
    while i < |files|
      invariant 0 <= i <= |files|
      invariant out == Output(fs, files[..i])
    {
      assert files[..i + 1][..i] == files[..i];
      out := out + Process(fs, files[i]);
      i := i + 1;
    }
    assert files[..|files|] == files;
    if |argv| == 0 {
      EmptyArgsLikeDot(fs);
    }
  }

  /** An empty argument list behaves exactly like `['.']`. */
  lemma EmptyArgsLikeDot(fs: map<string, Entry>)
    ensures Output(fs, Roots([])) == Output(fs, ["."])
    ensures Output(fs, ["."]) == Process(fs, ".")
  {
    assert Output(fs, ["."]) == Output(fs, []) + Process(fs, ".");
  }
}
