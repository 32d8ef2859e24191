/** The `$rem` handling of qchem_make_freq_input_from_opt.py: tightening
    the thresholds of an optimization's `$rem` for a frequency job, and the
    text of the frequency input. */
module QChemFreqFromOpt {
  import opened Py
  import opened Strs
  import opened ODict

  /** A `$rem` value: the text read from the output, or an integer put in
      by `clean_up_rem`. */
  datatype RemVal = Str(s: string) | Int(i: int)

  type Rem = Dict<string, RemVal>

  const MinThresh := 12
  const MinScfConvergence := 9

  /** `int(v)`. */
  function ToInt(v: RemVal): (r: Result<int>)
    ensures v.Int? ==> r == Ok(v.i)
    ensures r.Err? ==> r.exc == ValueError
  {
    match v
    case Str(s) => ParseInt(s)
    case Int(i) => Ok(i)
  }

  /** `'{}'.format(v)`. */
  function Format(v: RemVal): string
  {
    match v
    case Str(s) => s
    case Int(i) => IntToString(i)
  }

  /** One guarded step of `clean_up_rem`: when `key` is present its value
      is read with `int()`, and a value below `min` is replaced by `min`. */
  function Raise(rem: Rem, key: string, min: int): Result<Rem>
  {
    match Get(rem, key)
    case None => Ok(rem)
    case Some(v) =>
      match ToInt(v)
      case Err(e) => Err(e)
      case Ok(n) => if n < min then Ok(Set(rem, key, Int(min))) else Ok(rem)
  }

  /** `clean_up_rem(rem)`, on a copy: `thresh` first, then `scf_convergence`. */
  function CleanUpRem(rem: Rem): Result<Rem>
  {
    match Raise(rem, "thresh", MinThresh)
    case Err(e) => Err(e)
    case Ok(r) => Raise(r, "scf_convergence", MinScfConvergence)
  }

  /** What a present value that reads as an integer becomes: `min` when
      it reads below `min`, itself otherwise. An absent value stays absent. */
  function Raised(v: Option<RemVal>, min: int): Option<RemVal>
  {
    match v
    case None => None
    case Some(x) => if ToInt(x).Ok? && ToInt(x).value < min then Some(Int(min)) else v
  }

  /** One step keeps the keys and every other value; a present value that
      reads below `min` becomes `min`, one at or above is kept, and one
      that does not read as an integer raises ValueError. */
  lemma RaiseMeaning(rem: Rem, key: string, min: int)
    ensures Raise(rem, key, min).Err? <==> Get(rem, key).Some? && ToInt(Get(rem, key).value).Err?
    ensures Raise(rem, key, min).Err? ==> Raise(rem, key, min).exc == ValueError
    ensures Raise(rem, key, min).Ok? ==> Keys(Raise(rem, key, min).value) == Keys(rem)
    ensures Raise(rem, key, min).Ok? ==>
      forall k :: k != key ==> Get(Raise(rem, key, min).value, k) == Get(rem, k)
    ensures Raise(rem, key, min).Ok? ==>
      Get(Raise(rem, key, min).value, key) == Raised(Get(rem, key), min)
  {
    GetMeaning(rem, key);
    match Get(rem, key)
    case None =>
    case Some(v) =>
      if ToInt(v).Ok? && ToInt(v).value < min {
        SetKeys(rem, key, Int(min));
        GetSetSame(rem, key, Int(min));
        forall k | k != key ensures Get(Set(rem, key, Int(min)), k) == Get(rem, k) {
          GetSetOther(rem, key, Int(min), k);
        }
      }
  }

  /** A value that already reads at or above `min` is left alone, so a
      second pass changes nothing. */
  lemma RaiseIdempotent(rem: Rem, key: string, min: int)
    requires Raise(rem, key, min).Ok?
    ensures Raise(Raise(rem, key, min).value, key, min) == Raise(rem, key, min)
  {
    RaiseMeaning(rem, key, min);
  }

  /** `clean_up_rem` raises `thresh` below 12 to 12 and `scf_convergence`
      below 9 to 9, never lowers a value, adds no key and changes no other
      key; it fails with ValueError exactly when one of the two present
      values is not an integer. */
  lemma CleanUpRemMeaning(rem: Rem)
    ensures CleanUpRem(rem).Err? <==>
      (Get(rem, "thresh").Some? && ToInt(Get(rem, "thresh").value).Err?) ||
      (Get(rem, "scf_convergence").Some? && ToInt(Get(rem, "scf_convergence").value).Err?)
    ensures CleanUpRem(rem).Err? ==> CleanUpRem(rem).exc == ValueError
    ensures CleanUpRem(rem).Ok? ==> Keys(CleanUpRem(rem).value) == Keys(rem)
    ensures CleanUpRem(rem).Ok? ==> forall k :: k != "thresh" && k != "scf_convergence" ==>
      Get(CleanUpRem(rem).value, k) == Get(rem, k)
    ensures CleanUpRem(rem).Ok? ==>
      Get(CleanUpRem(rem).value, "thresh") == Raised(Get(rem, "thresh"), MinThresh)
    ensures CleanUpRem(rem).Ok? ==>
      Get(CleanUpRem(rem).value, "scf_convergence") ==
      Raised(Get(rem, "scf_convergence"), MinScfConvergence)
  {
    RaiseMeaning(rem, "thresh", MinThresh);
    if Raise(rem, "thresh", MinThresh).Ok? {
      var r := Raise(rem, "thresh", MinThresh).value;
      assert Get(r, "scf_convergence") == Get(rem, "scf_convergence");
      RaiseMeaning(r, "scf_convergence", MinScfConvergence);
    }
  }

  /** Cleaning an already cleaned `$rem` changes nothing. */
  lemma CleanUpRemIdempotent(rem: Rem)
    requires CleanUpRem(rem).Ok?
    ensures CleanUpRem(CleanUpRem(rem).value) == CleanUpRem(rem)
  {
    var r1 := Raise(rem, "thresh", MinThresh).value;
    var r2 := Raise(r1, "scf_convergence", MinScfConvergence).value;
    RaiseMeaning(r1, "scf_convergence", MinScfConvergence);
    RaiseIdempotent(rem, "thresh", MinThresh);
    RaiseMeaning(r1, "thresh", MinThresh);
    assert Raise(r2, "thresh", MinThresh) == Ok(r2) by {
      assert Get(r2, "thresh") == Get(r1, "thresh");
      RaiseMeaning(rem, "thresh", MinThresh);
    }
    RaiseIdempotent(r1, "scf_convergence", MinScfConvergence);
  }

  // ---------------------------------------------------------------------
  // The input file

  /** The keywords `template_input_freq` does not copy. */
  predicate Avoided(k: string)
  {
    k == "jobtype"
  }

  /** ` k = v`. */
  function RemLine(k: string, v: RemVal): string
  {
    " " + k + " = " + Format(v)
  }

  const JobtypeLine := " jobtype = freq"

  /** The `rem_pieces` the loop collects from the first entries of `rem`. */
  function RemPieces(rem: Rem): seq<string>
    decreases |rem|
  {
    if |rem| == 0 then []
    else
      var e := rem[|rem| - 1];
      RemPieces(rem[..|rem| - 1]) + (if Avoided(e.0) then [] else [RemLine(e.0, e.1)])
  }

  /** `template_input_freq(molecule, **rem)` as a value. */
  function TemplateSpec(molecule: string, rem: Rem): string
  {
    Join("\n", ["$rem", JobtypeLine, Join("\n", RemPieces(rem)), "$end", "", "$molecule", molecule, "$end", ""])
  }

  /** `template_input_freq(molecule, **rem)`: the loop over the keywords,
      then the template. */
  method TemplateInputFreq(molecule: string, rem: Rem) returns (r: string)
    ensures r == TemplateSpec(molecule, rem)
  {
    var pieces: seq<string> := [];
    var i := 0;
    while i < |rem|
      invariant 0 <= i <= |rem|
      invariant pieces == RemPieces(rem[..i])
    {
      var (k, v) := rem[i];
      assert rem[..i + 1][..i] == rem[..i];
      if !Avoided(k) {
        pieces := pieces + [RemLine(k, v)];
      }
      i := i + 1;
    }
    assert rem[..i] == rem;
    var remStr := Join("\n", pieces);
    r := Join("\n", ["$rem", JobtypeLine, remStr, "$end", "", "$molecule", molecule, "$end", ""]);
  }

  /** The pieces of two runs of entries are those of each, in order. */
  lemma {:induction false} RemPiecesConcat(a: Rem, b: Rem)
    ensures RemPieces(a + b) == RemPieces(a) + RemPieces(b)
    decreases |b|
  {
    if |b| > 0 {
      var b' := b[..|b| - 1];
      assert (a + b)[..|a + b| - 1] == a + b';
      assert (a + b)[|a + b| - 1] == b[|b| - 1];
      RemPiecesConcat(a, b');
    } else {
      assert a + b == a;
    }
  }

  /** Without a `jobtype` entry every entry gives its ` k = v` line, in
      dictionary order. */
  lemma {:induction false} RemPiecesAll(rem: Rem)
    requires forall i :: 0 <= i < |rem| ==> !Avoided(rem[i].0)
    ensures |RemPieces(rem)| == |rem|
    ensures forall i :: 0 <= i < |rem| ==> RemPieces(rem)[i] == RemLine(rem[i].0, rem[i].1)
    decreases |rem|
  {
    if |rem| > 0 {
      var front := rem[..|rem| - 1];
      var e := rem[|rem| - 1];
      RemPiecesAll(front);
      assert RemPieces(rem) == RemPieces(front) + [RemLine(e.0, e.1)];
      forall i | 0 <= i < |front| ensures RemPieces(rem)[i] == RemLine(rem[i].0, rem[i].1) {
        assert rem[i] == front[i];
      }
    }
  }

  /** An incoming `jobtype` entry is dropped: the pieces are those of the
      dictionary without it. */
  lemma RemPiecesDropJobtype(rem: Rem, j: nat)
    requires j < |rem| && Avoided(rem[j].0)
    ensures RemPieces(rem) == RemPieces(rem[..j] + rem[j + 1..])
  {
    var front, back := rem[..j], rem[j + 1..];
    assert rem == (front + [rem[j]]) + back;
    RemPiecesConcat(front + [rem[j]], back);
    RemPiecesSkip(front, rem[j]);
    RemPiecesConcat(front, back);
  }

  /** An avoided entry adds no piece. */
  lemma RemPiecesSkip(front: Rem, e: (string, RemVal))
    requires Avoided(e.0)
    ensures RemPieces(front + [e]) == RemPieces(front)
  {
    assert (front + [e])[..|front|] == front;
  }

  /** The only ` k = v` line that reads ` jobtype = freq` is the one of
      the key `jobtype`: the `=` of the line must sit where it does there. */
  lemma JobtypeLineKey(k: string, v: RemVal)
    ensures RemLine(k, v) == JobtypeLine ==> k == "jobtype"
  {
    var l := RemLine(k, v);
    if l == JobtypeLine {
      assert l[|k| + 2] == '=';
      EqualsSignAt(|k| + 2);
      assert k == l[1..8];
      assert JobtypeLine[1..8] == "jobtype";
    }
  }

  /** ` jobtype = freq` has its only `=` at position 9. */
  lemma EqualsSignAt(j: int)
    requires 0 <= j < |JobtypeLine| && JobtypeLine[j] == '='
    ensures j == 9
  {
  }

  /** The ` jobtype = freq` line is not among the copied lines, so the
      template states the job type once. */
  lemma {:induction false} JobtypeOnce(rem: Rem)
    ensures JobtypeLine !in RemPieces(rem)
    decreases |rem|
  {
    if |rem| > 0 {
      var e := rem[|rem| - 1];
      JobtypeOnce(rem[..|rem| - 1]);
      JobtypeLineKey(e.0, e.1);
    }
  }
}
