/** Validation of a `.git-blame-ignore-revs` file
    (validate_git_blame_ignore_revs.py): each line of the file is a commit
    hash, a `#` comment or blank; anything else is an error. Line numbers
    start at 1. The subjects `git show` prints for commits are a parameter:
    a hash absent from it is a commit `git show` fails on. */
module BlameIgnoreRevs {
  import opened Strs

  // ---------------------------------------------------------------------
  // Parsing

  predicate IsLowerHex(c: char)
  {
    '0' <= c <= '9' || 'a' <= c <= 'f'
  }

  /** The regular expression `^[0-9a-f]{40}$`, matched against a stripped
      line (which has no trailing newline for `$` to skip). */
  predicate IsCommitHash(s: string)
  {
    |s| == 40 && forall i :: 0 <= i < |s| ==> IsLowerHex(s[i])
  }

  /** The line with 1-based number `ln` of `lines`, stripped. */
  function Stripped(lines: seq<string>, ln: int): string
    requires 1 <= ln <= |lines|
  {
    Strip(lines[ln - 1])
  }

  predicate IsHashLine(lines: seq<string>, ln: int)
  {
    1 <= ln <= |lines| && IsCommitHash(Stripped(lines, ln))
  }

  /** The valid hashes among the first `n` lines. */
  function HashesUpTo(lines: seq<string>, n: nat): map<int, string>
    requires n <= |lines|
  {
    if n == 0 then map[]
    else
      var line := Strip(lines[n - 1]);
      if IsCommitHash(line) then HashesUpTo(lines, n - 1)[n := line] else HashesUpTo(lines, n - 1)
  }

  lemma {:induction false} HashesUpToMeaning(lines: seq<string>, n: nat)
    requires n <= |lines|
    ensures forall ln :: ln in HashesUpTo(lines, n) <==> IsHashLine(lines, ln) && ln <= n
    ensures forall ln :: ln in HashesUpTo(lines, n) ==> 1 <= ln <= |lines| && HashesUpTo(lines, n)[ln] == Stripped(lines, ln)
  {
    if n > 0 {
      HashesUpToMeaning(lines, n - 1);
      var prev := HashesUpTo(lines, n - 1);
      var line := Strip(lines[n - 1]);
      var m := HashesUpTo(lines, n);
      assert m == if IsCommitHash(line) then prev[n := line] else prev;
      assert Stripped(lines, n) == line;
      forall ln ensures ln in m <==> IsHashLine(lines, ln) && ln <= n {
        if ln != n {
          assert ln in m <==> ln in prev;
        }
      }
      forall ln | ln in m ensures 1 <= ln <= |lines| && m[ln] == Stripped(lines, ln) {
        if ln != n {
          assert ln in prev && m[ln] == prev[ln];
        }
      }
    }
  }

  /** `parse_git_blame_ignore_revs`: keeps every line whose stripped text is
      a commit hash, keyed by its line number. */
  method ParseGitBlameIgnoreRevs(lines: seq<string>) returns (validHashes: map<int, string>)
    ensures forall ln :: ln in validHashes <==> IsHashLine(lines, ln)
    ensures forall ln :: ln in validHashes ==> 1 <= ln <= |lines| && validHashes[ln] == Stripped(lines, ln)
  {
    validHashes := map[];
    var i := 0;
    while i < |lines|
      invariant 0 <= i <= |lines|
      invariant validHashes == HashesUpTo(lines, i)
    {
      var lineNumber := i + 1;
      var line := Strip(lines[i]);
      assert HashesUpTo(lines, i + 1) ==
        if IsCommitHash(line) then HashesUpTo(lines, i)[lineNumber := line] else HashesUpTo(lines, i);
      if IsCommitHash(line) {
        validHashes := validHashes[lineNumber := line];
      }
      i := i + 1;
    }
    HashesUpToMeaning(lines, |lines|);
  }

  /** The `errors` comprehension: every non-blank line that is neither a
      `#` comment nor a valid hash, keyed by line number, stripped. */
  function Errors(lines: seq<string>, validHashes: map<int, string>): map<int, string>
  {
    map ln | 1 <= ln <= |lines| && Stripped(lines, ln) != "" && !StartsWith(Stripped(lines, ln), "#")
        && ln !in validHashes :: Stripped(lines, ln)
  }

  /** Classification of a line: blank and comment lines are in neither map;
      every other line is in exactly one of the valid hashes and the
      errors. */
  lemma LineClassification(lines: seq<string>, validHashes: map<int, string>, ln: int)
    requires forall l :: l in validHashes <==> IsHashLine(lines, l)
    requires 1 <= ln <= |lines|
    ensures var t := Stripped(lines, ln);
            (t == "" || StartsWith(t, "#")) ==> ln !in validHashes && ln !in Errors(lines, validHashes)
    ensures var t := Stripped(lines, ln);
            !(t == "" || StartsWith(t, "#")) ==> (ln in validHashes <==> ln !in Errors(lines, validHashes))
    ensures ln in Errors(lines, validHashes) ==> Errors(lines, validHashes)[ln] == Stripped(lines, ln)
  {
    var t := Stripped(lines, ln);
    if StartsWith(t, "#") {
      assert t[0] == '#' && !IsLowerHex(t[0]);
    }
  }

  // ---------------------------------------------------------------------
  // Strict comments

  /** The comment text above line `ln`: the previous line stripped of
      whitespace, then of leading `#`s, then of whitespace again; empty on
      line 1. */
  function LastComment(lines: seq<string>, ln: int): string
    requires ln >= 1 && ln - 2 < |lines|
  {
    if ln > 1 then Strip(LStripChar(Strip(lines[ln - 2]), '#')) else ""
  }

  predicate AllSpace(s: string)
  {
    forall i :: 0 <= i < |s| ==> IsSpace(s[i])
  }

  predicate AllHash(s: string)
  {
    forall i :: 0 <= i < |s| ==> s[i] == '#'
  }

  /** `x` is whitespace, then `#` characters, then whitespace: the lines
      that do not count as a comment. */
  predicate IsBareCommentMark(x: string)
  {
    exists i, j :: 0 <= i <= j <= |x| && AllSpace(x[..i]) && AllHash(x[i..j]) && AllSpace(x[j..])
  }

  lemma {:induction false} LStripSpaces(sp: string, t: string)
    requires AllSpace(sp) && (t == [] || !IsSpace(t[0]))
    ensures LStrip(sp + t) == t
    decreases |sp|
  {
    if |sp| > 0 {
      assert (sp + t)[1..] == sp[1..] + t;
      LStripSpaces(sp[1..], t);
    } else {
      assert sp + t == t;
    }
  }

  lemma {:induction false} RStripSpaces(t: string, sp: string)
    requires AllSpace(sp) && (t == [] || !IsSpace(t[|t| - 1]))
    ensures RStrip(t + sp) == t
    decreases |sp|
  {
    if |sp| > 0 {
      assert (t + sp)[..|t + sp| - 1] == t + sp[..|sp| - 1];
      RStripSpaces(t, sp[..|sp| - 1]);
    } else {
      assert t + sp == t;
    }
  }

  lemma {:induction false} LStripAllHash(h: string)
    requires AllHash(h)
    ensures LStripChar(h, '#') == ""
    decreases |h|
  {
    if |h| > 0 {
      LStripAllHash(h[1..]);
    }
  }

  lemma AllSpaceConcat(s: string, t: string)
    requires AllSpace(s) && AllSpace(t)
    ensures AllSpace(s + t)
  {
    forall m | 0 <= m < |s + t| ensures IsSpace((s + t)[m]) {
      if m >= |s| {
        assert (s + t)[m] == t[m - |s|];
      }
    }
  }

  /** `Strip(x)` sits in `x` at position `p`, between two runs of
      whitespace. */
  lemma StripShape(x: string) returns (p: nat)
    ensures p + |Strip(x)| <= |x| && x[p..p + |Strip(x)|] == Strip(x)
    ensures AllSpace(x[..p]) && AllSpace(x[p + |Strip(x)|..])
  {
    var l := LStrip(x);
    var a := Strip(x);
    LStripSpec(x);
    RStripSpec(l);
    p := |x| - |l|;
    assert l == x[p..];
    assert a == l[..|a|];
    assert x[p..p + |a|] == l[..|a|];
    assert x[p + |a|..] == l[|a|..];
  }

  /** With strict comments on, a hash lacks a comment exactly when it is on
      line 1 or the line above holds nothing but whitespace and `#`s (in
      that shape: whitespace, marks, whitespace). */
  lemma LastCommentEmptyIff(lines: seq<string>, ln: int)
    requires 1 <= ln && ln - 2 < |lines|
    ensures LastComment(lines, ln) == "" <==> ln == 1 || IsBareCommentMark(lines[ln - 2])
  {
    if ln > 1 {
      var x := lines[ln - 2];
      if LastComment(lines, ln) == "" {
        CommentlessIsBare(x);
      } else if IsBareCommentMark(x) {
        BareHasNoComment(x);
        assert false;
      }
    }
  }

  lemma CommentlessIsBare(x: string)
    requires Strip(LStripChar(Strip(x), '#')) == ""
    ensures IsBareCommentMark(x)
  {
    var a := Strip(x);
    var b := LStripChar(a, '#');
    var p := StripShape(x);
    var k := |a| - |b|;
    LStripCharSpec(a, '#');
    StripEmptyIffAllSpace(b);
    assert x[p..p + k] == a[..k];
    assert x[p + k..] == b + x[p + |a|..];
    AllSpaceConcat(b, x[p + |a|..]);
    assert AllHash(x[p..p + k]);
  }

  lemma BareHasNoComment(x: string)
    requires IsBareCommentMark(x)
    ensures Strip(LStripChar(Strip(x), '#')) == ""
  {
    var i, j :| 0 <= i <= j <= |x| && AllSpace(x[..i]) && AllHash(x[i..j]) && AllSpace(x[j..]);
    BareStrip(x, i, j);
  }

  lemma BareStrip(x: string, i: int, j: int)
    requires 0 <= i <= j <= |x| && AllSpace(x[..i]) && AllHash(x[i..j]) && AllSpace(x[j..])
    ensures Strip(LStripChar(Strip(x), '#')) == ""
  {
    if i == j {
      assert AllSpace(x) by {
        assert x == x[..i] + x[j..];
        AllSpaceConcat(x[..i], x[j..]);
      }
      StripEmptyIffAllSpace(x);
    } else {
      assert Strip(x) == x[i..j] by {
        StripAroundMarks(x, i, j);
      }
      LStripAllHash(x[i..j]);
    }
  }

  lemma StripAroundMarks(x: string, i: int, j: int)
    requires 0 <= i < j <= |x| && AllSpace(x[..i]) && AllHash(x[i..j]) && AllSpace(x[j..])
    ensures Strip(x) == x[i..j]
  {
    var h := x[i..j];
    var tail := h + x[j..];
    assert LStrip(x) == tail by {
      assert x == x[..i] + tail;
      assert tail[0] == '#';
      LStripSpaces(x[..i], tail);
    }
    assert RStrip(tail) == h by {
      assert h[|h| - 1] == '#';
      RStripSpaces(h, x[j..]);
    }
  }

  /** What `validate_commit_hashes` reports for line `ln` with hash `h`,
      given which checks are on and the subjects `git show` knows. */
  predicate StrictCommentError(lines: seq<string>, ln: int, h: string, strictComments: bool,
                               strictCommentsGit: bool, gitShow: map<string, string>)
    requires ln >= 1 && ln - 2 < |lines|
  {
    (strictComments && LastComment(lines, ln) == "") || (strictCommentsGit && h !in gitShow)
  }

  predicate CommentDiffers(lines: seq<string>, ln: int, h: string, strictCommentsGit: bool,
                           gitShow: map<string, string>)
    requires ln >= 1 && ln - 2 < |lines|
  {
    strictCommentsGit && h in gitShow && !StartsWith(gitShow[h], LastComment(lines, ln))
  }

  /** The strict-comment errors for the valid hashes on the first `n`
      lines, visited in line order (the insertion order of the parsed
      dictionary). */
  function ErrorsUpTo(validHashes: map<int, string>, lines: seq<string>, strictComments: bool,
                      strictCommentsGit: bool, gitShow: map<string, string>, n: nat): map<int, string>
    requires n <= |lines|
  {
    if n == 0 then map[]
    else
      var errs := ErrorsUpTo(validHashes, lines, strictComments, strictCommentsGit, gitShow, n - 1);
      if n in validHashes && StrictCommentError(lines, n, validHashes[n], strictComments, strictCommentsGit, gitShow)
      then errs[n := validHashes[n]] else errs
  }

  /** The comment differences for the valid hashes on the first `n` lines. */
  function DiffsUpTo(validHashes: map<int, string>, lines: seq<string>, strictCommentsGit: bool,
                     gitShow: map<string, string>, n: nat): map<int, (string, string)>
    requires n <= |lines|
  {
    if n == 0 then map[]
    else
      var diffs := DiffsUpTo(validHashes, lines, strictCommentsGit, gitShow, n - 1);
      if n in validHashes && CommentDiffers(lines, n, validHashes[n], strictCommentsGit, gitShow)
      then diffs[n := (LastComment(lines, n), gitShow[validHashes[n]])] else diffs
  }

  lemma {:induction false} ErrorsUpToMeaning(validHashes: map<int, string>, lines: seq<string>, strictComments: bool,
                                             strictCommentsGit: bool, gitShow: map<string, string>, n: nat)
    requires n <= |lines|
    ensures var errs := ErrorsUpTo(validHashes, lines, strictComments, strictCommentsGit, gitShow, n);
      (forall ln :: ln in errs <==> (1 <= ln <= n && ln in validHashes &&
         StrictCommentError(lines, ln, validHashes[ln], strictComments, strictCommentsGit, gitShow)))
      && (forall ln :: ln in errs ==> ln in validHashes && errs[ln] == validHashes[ln])
  {
    if n > 0 {
      ErrorsUpToMeaning(validHashes, lines, strictComments, strictCommentsGit, gitShow, n - 1);
      var errs0 := ErrorsUpTo(validHashes, lines, strictComments, strictCommentsGit, gitShow, n - 1);
      var errs := ErrorsUpTo(validHashes, lines, strictComments, strictCommentsGit, gitShow, n);
      var hit := n in validHashes && StrictCommentError(lines, n, validHashes[n], strictComments, strictCommentsGit, gitShow);
      assert errs == if hit then errs0[n := validHashes[n]] else errs0;
      forall ln | ln != n ensures (ln in errs <==> ln in errs0) && (ln in errs ==> errs[ln] == errs0[ln]) {
      }
    }
  }

  lemma {:induction false} DiffsUpToMeaning(validHashes: map<int, string>, lines: seq<string>, strictCommentsGit: bool,
                                            gitShow: map<string, string>, n: nat)
    requires n <= |lines|
    ensures var diffs := DiffsUpTo(validHashes, lines, strictCommentsGit, gitShow, n);
      (forall ln :: ln in diffs <==> (1 <= ln <= n && ln in validHashes &&
         CommentDiffers(lines, ln, validHashes[ln], strictCommentsGit, gitShow)))
      && (forall ln :: ln in diffs ==> (1 <= ln <= n && ln in validHashes && validHashes[ln] in gitShow &&
         diffs[ln] == (LastComment(lines, ln), gitShow[validHashes[ln]])))
  {
    if n > 0 {
      DiffsUpToMeaning(validHashes, lines, strictCommentsGit, gitShow, n - 1);
      var diffs0 := DiffsUpTo(validHashes, lines, strictCommentsGit, gitShow, n - 1);
      var diffs := DiffsUpTo(validHashes, lines, strictCommentsGit, gitShow, n);
      var hit := n in validHashes && CommentDiffers(lines, n, validHashes[n], strictCommentsGit, gitShow);
      if hit {
        assert diffs == diffs0[n := (LastComment(lines, n), gitShow[validHashes[n]])];
      } else {
        assert diffs == diffs0;
      }
      forall ln | ln != n ensures (ln in diffs <==> ln in diffs0) && (ln in diffs ==> diffs[ln] == diffs0[ln]) {
      }
    }
  }

  /** `validate_commit_hashes`: for each valid hash, a strict-comment error
      when comments are required and the line above carries none, or when
      `git show` fails on the hash; a comment difference when the commit
      subject does not start with the comment. */
  method ValidateCommitHashes(validHashes: map<int, string>, lines: seq<string>, strictComments: bool,
                              strictCommentsGit: bool, gitShow: map<string, string>)
    returns (strictCommentErrors: map<int, string>, commentDiffs: map<int, (string, string)>)
    requires forall ln :: ln in validHashes ==> 1 <= ln <= |lines|
    ensures forall ln :: ln in strictCommentErrors <==> (ln in validHashes &&
      StrictCommentError(lines, ln, validHashes[ln], strictComments, strictCommentsGit, gitShow))
    ensures forall ln :: ln in strictCommentErrors ==> ln in validHashes && strictCommentErrors[ln] == validHashes[ln]
    ensures forall ln :: ln in commentDiffs <==> (ln in validHashes &&
      CommentDiffers(lines, ln, validHashes[ln], strictCommentsGit, gitShow))
    ensures forall ln :: ln in commentDiffs ==> (ln in validHashes && validHashes[ln] in gitShow &&
      commentDiffs[ln] == (LastComment(lines, ln), gitShow[validHashes[ln]]))
    ensures !strictComments && !strictCommentsGit ==> strictCommentErrors == map[] && commentDiffs == map[]
  {
    strictCommentErrors := map[];
    commentDiffs := map[];
    var lineNumber := 1;
    while lineNumber <= |lines|
      invariant 1 <= lineNumber <= |lines| + 1
      invariant strictCommentErrors ==
        ErrorsUpTo(validHashes, lines, strictComments, strictCommentsGit, gitShow, lineNumber - 1)
      invariant commentDiffs == DiffsUpTo(validHashes, lines, strictCommentsGit, gitShow, lineNumber - 1)
    {
      if lineNumber in validHashes {
        var commitHash := validHashes[lineNumber];
        var lastComment := LastComment(lines, lineNumber);
        // `git show` failing on the hash counts as a strict-comment error.
        if (strictComments && lastComment == "") || (strictCommentsGit && commitHash !in gitShow) {
          strictCommentErrors := strictCommentErrors[lineNumber := commitHash];
        }
        if strictCommentsGit && commitHash in gitShow && !StartsWith(gitShow[commitHash], lastComment) {
          commentDiffs := commentDiffs[lineNumber := (lastComment, gitShow[commitHash])];
        }
      }
      lineNumber := lineNumber + 1;
    }
    ErrorsUpToMeaning(validHashes, lines, strictComments, strictCommentsGit, gitShow, |lines|);
    DiffsUpToMeaning(validHashes, lines, strictCommentsGit, gitShow, |lines|);
    if !strictComments && !strictCommentsGit {
      assert forall ln :: ln !in strictCommentErrors;
      assert forall ln :: ln !in commentDiffs;
    }
  }
}
