/** `getopts` of frank/other/pbsJobMaker.py: collecting `-name value`
    pairs from an argument list into a dictionary. */
module PbsJobMaker {
  import opened Py

  type Opts = map<string, string>

  /** The options `getopts` returns when the arguments still to be read
      are `argv` and the options read so far are `opts`. Reading the first
      character of an empty argument, or the value of a flag with nothing
      after it, raises IndexError. */
  function GetOptsFrom(argv: seq<string>, opts: Opts): Result<Opts>
    decreases |argv|
  {
    if |argv| == 0 then Ok(opts)
    else if |argv[0]| == 0 then Err(IndexError)
    else if argv[0][0] == '-' then
      if |argv| < 2 then Err(IndexError) else GetOptsFrom(argv[2..], opts[argv[0] := argv[1]])
    else GetOptsFrom(argv[1..], opts)
  }

  /** `getopts(argv)`: the `while argv` loop, which drops two arguments
      after a flag and one otherwise. */
  method GetOpts(argv: seq<string>) returns (r: Result<Opts>)
    ensures r == GetOptsFrom(argv, map[])
  {
    var opts: Opts := map[];
    var rest := argv;
    while |rest| > 0
      invariant GetOptsFrom(rest, opts) == GetOptsFrom(argv, map[])
      decreases |rest|
    {
      if |rest[0]| == 0 {
        return Err(IndexError);
      }
      if rest[0][0] == '-' {
        if |rest| < 2 {
          return Err(IndexError);
        }
        opts := opts[rest[0] := rest[1]];
        rest := rest[2..];
      } else {
        rest := rest[1..];
      }
    }
    r := Ok(opts);
  }

  predicate IsFlag(a: string)
  {
    |a| > 0 && a[0] == '-'
  }

  /** A `-name value` pair. */
  predicate IsPair(p: (string, string))
  {
    IsFlag(p.0)
  }

  /** The argument list `-k0 v0 -k1 v1 ...`. */
  function Flatten(ps: seq<(string, string)>): (r: seq<string>)
    ensures |r| == 2 * |ps|
  {
    if |ps| == 0 then [] else [ps[0].0, ps[0].1] + Flatten(ps[1..])
  }

  /** The dictionary after assigning the pairs in order. */
  function Assign(opts: Opts, ps: seq<(string, string)>): Opts
    decreases |ps|
  {
    if |ps| == 0 then opts else Assign(opts[ps[0].0 := ps[0].1], ps[1..])
  }

  /** A run of `-name value` pairs is read pair by pair: each pair is
      assigned to the dictionary in order, whatever its value looks like. */
  lemma {:induction false} GetOptsPairs(ps: seq<(string, string)>, rest: seq<string>, opts: Opts)
    requires forall i :: 0 <= i < |ps| ==> IsPair(ps[i])
    ensures GetOptsFrom(Flatten(ps) + rest, opts) == GetOptsFrom(rest, Assign(opts, ps))
    decreases |ps|
  {
    if |ps| > 0 {
      var argv := Flatten(ps) + rest;
      assert argv[0] == ps[0].0 && argv[1] == ps[0].1;
      assert argv[2..] == Flatten(ps[1..]) + rest;
      GetOptsPairs(ps[1..], rest, opts[ps[0].0 := ps[0].1]);
    } else {
      assert Flatten(ps) + rest == rest;
    }
  }

  /** An argument that does not start with `-` is skipped on its own. */
  lemma SkipWord(w: string, rest: seq<string>, opts: Opts)
    requires |w| > 0 && w[0] != '-'
    ensures GetOptsFrom([w] + rest, opts) == GetOptsFrom(rest, opts)
  {
    assert ([w] + rest)[1..] == rest;
  }

  /** A flag at the very end has no value: IndexError. An empty argument
      where a flag or a word is expected is IndexError too. */
  lemma TrailingFlag(ps: seq<(string, string)>, f: string, opts: Opts)
    requires forall i :: 0 <= i < |ps| ==> IsPair(ps[i])
    requires IsFlag(f)
    ensures GetOptsFrom(Flatten(ps) + [f], opts) == Err(IndexError)
    ensures GetOptsFrom(Flatten(ps) + [""], opts) == Err(IndexError)
  {
    GetOptsPairs(ps, [f], opts);
    GetOptsPairs(ps, [""], opts);
  }

  /** Every pair's key ends up in the dictionary with the value of its
      last occurrence: a later duplicate overwrites an earlier one. */
  lemma {:induction false} AssignLastWins(opts: Opts, ps: seq<(string, string)>, j: nat)
    requires j < |ps|
    requires forall m :: j < m < |ps| ==> ps[m].0 != ps[j].0
    ensures ps[j].0 in Assign(opts, ps) && Assign(opts, ps)[ps[j].0] == ps[j].1
    decreases |ps|
  {
    var next := opts[ps[0].0 := ps[0].1];
    if j == 0 {
      AssignUntouched(next, ps[1..], ps[0].0);
    } else {
      AssignLastWins(next, ps[1..], j - 1);
    }
  }

  /** A key no pair assigns keeps its entry, or its absence. */
  lemma {:induction false} AssignUntouched(opts: Opts, ps: seq<(string, string)>, k: string)
    requires forall m :: 0 <= m < |ps| ==> ps[m].0 != k
    ensures (k in Assign(opts, ps)) == (k in opts)
    ensures k in opts ==> Assign(opts, ps)[k] == opts[k]
    decreases |ps|
  {
    if |ps| > 0 {
      AssignUntouched(opts[ps[0].0 := ps[0].1], ps[1..], k);
    }
  }

  /** Whatever the arguments, a successful read only holds entries it
      started with or a flag followed by its value in the arguments. */
  lemma {:induction false} GetOptsSound(argv: seq<string>, opts: Opts)
    requires GetOptsFrom(argv, opts).Ok?
    ensures forall k :: k in GetOptsFrom(argv, opts).value ==>
      (k in opts && GetOptsFrom(argv, opts).value[k] == opts[k]) ||
      exists i :: 0 <= i < |argv| - 1 && argv[i] == k && IsFlag(k) && argv[i + 1] == GetOptsFrom(argv, opts).value[k]
    decreases |argv|
  {
    if |argv| > 0 {
      var r := GetOptsFrom(argv, opts).value;
      if argv[0][0] == '-' {
        var next := opts[argv[0] := argv[1]];
        GetOptsSound(argv[2..], next);
        forall k | k in r
          ensures (k in opts && r[k] == opts[k]) ||
            exists i :: 0 <= i < |argv| - 1 && argv[i] == k && IsFlag(k) && argv[i + 1] == r[k]
        {
          if k in next && r[k] == next[k] {
            if k == argv[0] {
              assert 0 <= 0 < |argv| - 1 && argv[0] == k && IsFlag(k) && argv[1] == r[k];
            }
          } else {
            var i :| 0 <= i < |argv[2..]| - 1 && argv[2..][i] == k && IsFlag(k) && argv[2..][i + 1] == r[k];
            assert argv[i + 2] == k && argv[i + 3] == r[k];
          }
        }
      } else {
        GetOptsSound(argv[1..], opts);
        forall k | k in r
          ensures (k in opts && r[k] == opts[k]) ||
            exists i :: 0 <= i < |argv| - 1 && argv[i] == k && IsFlag(k) && argv[i + 1] == r[k]
        {
          if !(k in opts && r[k] == opts[k]) {
            var i :| 0 <= i < |argv[1..]| - 1 && argv[1..][i] == k && IsFlag(k) && argv[1..][i + 1] == r[k];
            assert argv[i + 1] == k && argv[i + 2] == r[k];
          }
        }
      }
    }
  }
}
