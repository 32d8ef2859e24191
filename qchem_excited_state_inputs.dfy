/** Naming and `$rem` rendering for Q-Chem excited-state inputs
    (chemistry/qchem_make_excited_state_inputs.py). The options of one
    input are an insertion-ordered dictionary from option names to values;
    `method_to_name` and `dict_keys_private_to_public` change it in place. */
module QChemExcitedStateInputs {
  import opened Py
  import opened Strs
  import opened ODict
  import opened StrOrder

  /** The option values the script handles: strings, booleans and integers. */
  datatype PyVal = Str(s: string) | Bool(b: bool) | Int(i: int)

  /** Python's truth value of an option. */
  predicate Truthy(v: PyVal)
  {
    match v
    case Str(s) => s != ""
    case Bool(b) => b
    case Int(i) => i != 0
  }

  // ---------------------------------------------------------------------
  // key_partial_match

  /** The first key, in dictionary order, that contains `kp`; `None` stands
      for the `-1` the script returns when there is none. */
  function FirstKeyContaining(kp: string, keys: seq<string>): Option<string>
    decreases |keys|
  {
    if |keys| == 0 then None
    else if Contains(keys[0], kp) then Some(keys[0])
    else FirstKeyContaining(kp, keys[1..])
  }

  lemma {:induction false} FirstKeyContainingMeaning(kp: string, keys: seq<string>)
    ensures FirstKeyContaining(kp, keys).None? <==> forall i :: 0 <= i < |keys| ==> !Contains(keys[i], kp)
    ensures FirstKeyContaining(kp, keys).Some? ==>
      exists i :: 0 <= i < |keys| && keys[i] == FirstKeyContaining(kp, keys).value && Contains(keys[i], kp) &&
        forall j :: 0 <= j < i ==> !Contains(keys[j], kp)
    decreases |keys|
  {
    if |keys| > 0 && !Contains(keys[0], kp) {
      FirstKeyContainingMeaning(kp, keys[1..]);
      if FirstKeyContaining(kp, keys).Some? {
        var i :| 0 <= i < |keys[1..]| && keys[1..][i] == FirstKeyContaining(kp, keys).value && Contains(keys[1..][i], kp) &&
          forall j :: 0 <= j < i ==> !Contains(keys[1..][j], kp);
        assert keys[i + 1] == keys[1..][i];
        forall j | 0 <= j < i + 1 ensures !Contains(keys[j], kp) {
          if j > 0 {
            assert keys[j] == keys[1..][j - 1];
          }
        }
      } else {
        forall i | 0 <= i < |keys| ensures !Contains(keys[i], kp) {
          if i > 0 {
            assert keys[i] == keys[1..][i - 1];
          }
        }
      }
    }
  }

  /** `key_partial_match(kp, d)`: the loop returns at the first key holding
      `kp` as a substring. */
  method KeyPartialMatch(kp: string, d: Dict<string, PyVal>) returns (r: Option<string>)
    ensures r == FirstKeyContaining(kp, Keys(d))
  {
    var keys := Keys(d);
    var i := 0;
    while i < |keys|
      invariant 0 <= i <= |keys|
      invariant FirstKeyContaining(kp, keys) == FirstKeyContaining(kp, keys[i..])
    {
      if Contains(keys[i], kp) {
        return Some(keys[i]);
      }
      assert keys[i..][1..] == keys[i + 1..];
      i := i + 1;
    }
    return None;
  }

  // ---------------------------------------------------------------------
  // which_ccman_string and bool_to_str

  /** `which_ccman_string(b)`: `ccman2` for a truthy value, else `ccman1`. */
  function WhichCcmanString(b: PyVal): (r: string)
    ensures r == "ccman2" <==> Truthy(b)
    ensures r == "ccman1" <==> !Truthy(b)
  {
    if Truthy(b) then "ccman2" else "ccman1"
  }

  /** `bool_to_str(b)`: compares with `True` and `False`, which the integers
      1 and 0 also equal; anything else exits the script. */
  function BoolToStr(v: PyVal): (r: Result<string>)
    ensures r == Ok("true") <==> v == Bool(true) || v == Int(1)
    ensures r == Ok("false") <==> v == Bool(false) || v == Int(0)
    ensures r.Err? ==> r.exc == SystemExit
  {
    if v == Bool(true) || v == Int(1) then Ok("true")
    else if v == Bool(false) || v == Int(0) then Ok("false")
    else Err(SystemExit)
  }

  // ---------------------------------------------------------------------
  // method_to_name

  /** `.replace("(", "_").replace(")", "")`. */
  function StripParens(s: string): string
  {
    ReplaceAll(ReplaceAll(s, "(", "_"), ")", "")
  }

  /** No parenthesis survives; without a `)` every `(` becomes `_` in
      place. */
  lemma StripParensSpec(s: string)
    ensures '(' !in StripParens(s) && ')' !in StripParens(s)
    ensures ')' !in s ==> |StripParens(s)| == |s|
    ensures ')' !in s ==> forall i :: 0 <= i < |s| ==> StripParens(s)[i] == (if s[i] == '(' then '_' else s[i])
  {
    var t := ReplaceAll(s, "(", "_");
    ReplaceCharPointwise(s, '(', '_');
    RemoveCharSpec(t, ')');
    assert '(' !in t by {
      forall i | 0 <= i < |t| ensures t[i] != '(' {
      }
    }
    RemovedCharsStayAbsent(t, ')', '(');
    if ')' !in s {
      assert ')' !in t by {
        forall i | 0 <= i < |t| ensures t[i] != ')' {
          assert s[i] != ')';
        }
      }
      assert multiset(t)[')'] == 0;
      ReplaceAbsent(t, ")", "");
    }
  }

  /** Deleting one character cannot introduce another. */
  lemma {:induction false} RemovedCharsStayAbsent(t: string, a: char, b: char)
    requires b !in t
    ensures b !in ReplaceAll(t, [a], "")
    decreases |t|
  {
    if |t| > 0 {
      RemovedCharsStayAbsent(t[1..], a, b);
      assert t[..1] == [t[0]];
    }
  }

  /** `d.get(k, default)`. */
  function GetOr(d: Dict<string, PyVal>, k: string, default: PyVal): PyVal
  {
    match Get(d, k)
    case Some(v) => v
    case None => default
  }

  /** The correlation piece of an EOM name: `sdt` maps to `cc23` under
      `ccsd` and to `cisdt` under `ci`; otherwise `ccsd` replaces it and
      `ci` strips its parentheses. */
  function CorrPiece(correlation: PyVal, eomCorr: string): string
  {
    if Contains(eomCorr, "sdt") then
      if correlation == Str("ccsd") then "cc23"
      else if correlation == Str("ci") then "cisdt"
      else eomCorr
    else
      if correlation == Str("ccsd") then "ccsd"
      else if correlation == Str("ci") then StripParens(eomCorr)
      else eomCorr
  }

  /** `-ri` for an `aux_basis` option, then `-cd` for a `cholesky_tol`. */
  function Approximations(d: Dict<string, PyVal>): seq<string>
  {
    (if "aux_basis" in Keys(d) then ["ri"] else []) + (if "cholesky_tol" in Keys(d) then ["cd"] else [])
  }

  /** The name built when there is no `method` option: the `-1` of a
      missing `states` key has no `split` (AttributeError), and `in` on a
      non-string `eom_corr` raises TypeError. */
  function EomName(d: Dict<string, PyVal>): Result<string>
  {
    match FirstKeyContaining("states", Keys(d))
    case None => Err(AttributeError)
    case Some(k) =>
      var eomCorr := GetOr(d, "eom_corr", Str("cisd"));
      if !eomCorr.Str? then Err(TypeError)
      else
        var pieces := ["eom", Split(k, '_')[0], CorrPiece(GetOr(d, "correlation", Str("ccsd")), eomCorr.s)];
        Ok(Join("-", pieces + Approximations(d)))
  }

  /** The name `method_to_name` computes: from `method` when present (a
      non-string has no `replace`), else the EOM name. */
  function Name(d: Dict<string, PyVal>): Result<string>
  {
    var m: Option<PyVal> := Get(d, "method");
    if m.None? then EomName(d)
    else if m.value.Str? then Ok(StripParens(m.value.s))
    else Err(AttributeError)
  }

  /** The options after `method_to_name`: `_name` is stored only when it is
      not there yet. */
  function WithName(d: Dict<string, PyVal>): Result<Dict<string, PyVal>>
  {
    match Name(d)
    case Err(e) => Err(e)
    case Ok(name) => if "_name" in Keys(d) then Ok(d) else Ok(Set(d, "_name", Str(name)))
  }

  /** An existing `_name` is never overwritten; otherwise the computed name
      is stored under `_name` and every other option is kept. */
  lemma NameKept(d: Dict<string, PyVal>, k: string)
    requires Name(d).Ok?
    ensures "_name" in Keys(d) ==> WithName(d) == Ok(d)
    ensures "_name" !in Keys(d) ==> Get(WithName(d).value, "_name") == Some(Str(Name(d).value))
    ensures k != "_name" ==> Get(WithName(d).value, k) == Get(d, k)
  {
    if "_name" !in Keys(d) {
      GetSetSame(d, "_name", Str(Name(d).value));
      if k != "_name" {
        GetSetOther(d, "_name", Str(Name(d).value), k);
      }
    }
  }

  /** With a method, its parentheses are stripped: `cis(d)` gives
      `cis_d`. */
  lemma MethodNameExample()
    ensures Name([("method", Str("cis(d)"))]) == Ok("cis_d")
  {
    ReplaceCharPointwise("cis(d)", '(', '_');
    assert ReplaceAll("cis(d)", "(", "_") == "cis_d" + ")";
    DropTrailing("cis_d", ')');
  }

  /** Deleting a character that occurs only at the end drops that end. */
  lemma {:induction false} DropTrailing(a: string, c: char)
    requires c !in a
    ensures ReplaceAll(a + [c], [c], "") == a
    decreases |a|
  {
    if |a| == 0 {
      assert ReplaceAll([c], [c], "") == "" + ReplaceAll([], [c], "");
    } else {
      assert (a + [c])[1..] == a[1..] + [c];
      assert (a + [c])[..1] == [a[0]];
      DropTrailing(a[1..], c);
      assert a == [a[0]] + a[1..];
    }
  }

  /** The EOM name is `eom-`, the part of the states key before its first
      `_`, `-` and the correlation piece, then `-ri` when there is an
      `aux_basis` option and `-cd` when there is a `cholesky_tol`. */
  lemma EomNameParts(d: Dict<string, PyVal>, k: string)
    requires Get(d, "method").None?
    requires FirstKeyContaining("states", Keys(d)) == Some(k)
    requires GetOr(d, "eom_corr", Str("cisd")).Str?
    ensures Name(d) == Ok("eom-" + Split(k, '_')[0] + "-" +
      CorrPiece(GetOr(d, "correlation", Str("ccsd")), GetOr(d, "eom_corr", Str("cisd")).s) +
      (if "aux_basis" in Keys(d) then "-ri" else "") + (if "cholesky_tol" in Keys(d) then "-cd" else ""))
  {
    var corr := CorrPiece(GetOr(d, "correlation", Str("ccsd")), GetOr(d, "eom_corr", Str("cisd")).s);
    var pieces := ["eom", Split(k, '_')[0], corr];
    assert Name(d) == Ok(Join("-", pieces + Approximations(d)));
    EomHead(Split(k, '_')[0], corr);
    JoinApproximations(pieces, "aux_basis" in Keys(d), "cholesky_tol" in Keys(d));
  }

  lemma EomHead(states: string, corr: string)
    ensures Join("-", ["eom", states, corr]) == "eom-" + states + "-" + corr
  {
    assert Join("-", [corr]) == corr;
    assert Join("-", [states, corr]) == states + "-" + corr;
    assert ["eom", states, corr][1..] == [states, corr];
  }

  /** The approximation suffixes join as `-ri` and `-cd`. */
  lemma JoinApproximations(pieces: seq<string>, ri: bool, cd: bool)
    requires |pieces| > 0
    ensures Join("-", pieces + ((if ri then ["ri"] else []) + (if cd then ["cd"] else []))) ==
      Join("-", pieces) + (if ri then "-ri" else "") + (if cd then "-cd" else "")
  {
    if ri && cd {
      JoinRiCd(pieces);
    } else if ri {
      JoinRi(pieces);
    } else if cd {
      JoinCd(pieces);
    } else {
      JoinNone(pieces);
    }
  }

  lemma JoinRiCd(pieces: seq<string>)
    requires |pieces| > 0
    ensures Join("-", pieces + (["ri"] + ["cd"])) == Join("-", pieces) + "-ri" + "-cd"
  {
    assert pieces + (["ri"] + ["cd"]) == (pieces + ["ri"]) + ["cd"];
    JoinDash(pieces, "ri");
    JoinDash(pieces + ["ri"], "cd");
    DashLiterals();
  }

  lemma JoinRi(pieces: seq<string>)
    requires |pieces| > 0
    ensures Join("-", pieces + (["ri"] + [])) == Join("-", pieces) + "-ri" + ""
  {
    assert pieces + (["ri"] + []) == pieces + ["ri"];
    JoinDash(pieces, "ri");
    DashLiterals();
  }

  lemma JoinCd(pieces: seq<string>)
    requires |pieces| > 0
    ensures Join("-", pieces + ([] + ["cd"])) == Join("-", pieces) + "" + "-cd"
  {
    assert pieces + ([] + ["cd"]) == pieces + ["cd"];
    JoinDash(pieces, "cd");
    DashLiterals();
  }

  lemma JoinNone(pieces: seq<string>)
    ensures Join("-", pieces + ([] + [])) == Join("-", pieces) + "" + ""
  {
    assert pieces + ([] + []) == pieces;
  }

  /** One more piece joins as a dash and that piece. */
  lemma JoinDash(pieces: seq<string>, x: string)
    requires |pieces| > 0
    ensures Join("-", pieces + [x]) == Join("-", pieces) + ("-" + x)
  {
    JoinSnoc("-", pieces, x);
  }

  lemma DashLiterals()
    ensures "-" + "ri" == "-ri" && "-" + "cd" == "-cd"
  {
  }

  /** `sdt` under `ccsd` is always `cc23`, under `ci` always `cisdt`, and a
      non-`sdt` correlation under `ccsd` is `ccsd`. */
  lemma CorrPieceCases(correlation: PyVal, eomCorr: string)
    ensures Contains(eomCorr, "sdt") && correlation == Str("ccsd") ==> CorrPiece(correlation, eomCorr) == "cc23"
    ensures Contains(eomCorr, "sdt") && correlation == Str("ci") ==> CorrPiece(correlation, eomCorr) == "cisdt"
    ensures !Contains(eomCorr, "sdt") && correlation == Str("ccsd") ==> CorrPiece(correlation, eomCorr) == "ccsd"
    ensures !Contains(eomCorr, "sdt") && correlation == Str("ci") ==>
      '(' !in CorrPiece(correlation, eomCorr) && ')' !in CorrPiece(correlation, eomCorr)
  {
    StripParensSpec(eomCorr);
  }

  /** The options of one input, changed in place by `method_to_name` and
      `dict_keys_private_to_public`. */
  class Options {
    var items: Dict<string, PyVal>

    constructor (items: Dict<string, PyVal>)
      ensures this.items == items
    {
      this.items := items;
    }

    /** `method_to_name(optdict)`: computes the name and stores it under
        `_name` unless that is present; an exception leaves the options as
        they were. */
    method MethodToName() returns (r: Result<()>)
      modifies this
      ensures WithName(old(items)).Err? ==> r == Err(WithName(old(items)).exc) && items == old(items)
      ensures WithName(old(items)).Ok? ==> r == Ok(()) && items == WithName(old(items)).value
    {
      var name: string;
      var methodOpt := Get(items, "method");
      match methodOpt {
        case None =>
          var km := KeyPartialMatch("states", items);
          if km.None? {
            return Err(AttributeError);
          }
          var eomType := Split(km.value, '_')[0];
          var correlation := GetOr(items, "correlation", Str("ccsd"));
          var eomCorrV := GetOr(items, "eom_corr", Str("cisd"));
          if !eomCorrV.Str? {
            return Err(TypeError);
          }
          var eomCorr := eomCorrV.s;
          if Contains(eomCorr, "sdt") {
            if correlation == Str("ccsd") {
              eomCorr := "cc23";
            }
            if correlation == Str("ci") {
              eomCorr := "cisdt";
            }
          } else {
            if correlation == Str("ccsd") {
              eomCorr := "ccsd";
            }
            if correlation == Str("ci") {
              eomCorr := StripParens(eomCorr);
            }
          }
          var pieces := ["eom", eomType, eomCorr];
          if "aux_basis" in Keys(items) {
            pieces := pieces + ["ri"];
          }
          if "cholesky_tol" in Keys(items) {
            pieces := pieces + ["cd"];
          }
          assert pieces == ["eom", eomType, eomCorr] + Approximations(items);
          name := Join("-", pieces);
        case Some(m) =>
          if !m.Str? {
            return Err(AttributeError);
          }
          name := StripParens(m.s);
      }
      if "_name" !in Keys(items) {
        items := Set(items, "_name", Str(name));
      }
      r := Ok(());
    }

    /** `dict_keys_private_to_public(d)`: with no key to rename the loop
        changes nothing; an empty key raises IndexError, and renaming a
        `_` key while iterating over the dictionary raises RuntimeError. */
    method DictKeysPrivateToPublic() returns (r: Result<()>)
      modifies this
      ensures r.Ok? <==> forall i :: 0 <= i < |old(items)| ==> !Private(old(items)[i].0)
      ensures r.Ok? ==> items == old(items)
      ensures r.Err? ==> r == Err(IndexError) || r == Err(RuntimeError)
      ensures FirstPrivate(Keys(old(items))) < |old(items)| && old(items)[FirstPrivate(Keys(old(items)))].0 == "" ==>
        r == Err(IndexError) && items == old(items)
    {
      var keys := Keys(items);
      var i := 0;
      while i < |keys|
        invariant 0 <= i <= |keys| && items == old(items) && keys == Keys(old(items))
        invariant forall j :: 0 <= j < i ==> !Private(keys[j])
        invariant FirstPrivate(keys) == i + FirstPrivate(keys[i..])
      {
        var k := keys[i];
        if k == "" {
          return Err(IndexError);
        }
        if k[0] == '_' {
          var v := Get(items, k);
          if v.Some? {
            items := Remove(Set(items, k[1..], v.value), k);
          }
          return Err(RuntimeError);
        }
        assert keys[i..][1..] == keys[i + 1..];
        i := i + 1;
      }
      r := Ok(());
    }
  }

  /** A key the renaming loop stops at: empty (no `k[0]`) or private. */
  predicate Private(k: string)
  {
    k == "" || k[0] == '_'
  }

  /** The position of the first key the loop stops at, or `|keys|`. */
  function FirstPrivate(keys: seq<string>): (n: nat)
    ensures n <= |keys|
    decreases |keys|
  {
    if |keys| == 0 then 0 else if Private(keys[0]) then 0 else 1 + FirstPrivate(keys[1..])
  }

  /** `del d[k]`. */
  function Remove(d: Dict<string, PyVal>, k: string): Dict<string, PyVal>
    decreases |d|
  {
    if |d| == 0 then d else if d[0].0 == k then d[1..] else [d[0]] + Remove(d[1..], k)
  }

  // ---------------------------------------------------------------------
  // inpfile_params_to_rem_string

  /** How `format` renders an option value, booleans through `bool_to_str`. */
  function ValueText(v: PyVal): string
  {
    match v
    case Str(s) => s
    case Int(i) => IntToString(i)
    case Bool(b) => if b then "true" else "false"
  }

  /** The `$rem` lines for `keys` in turn: an empty key fails on `k[0]`,
      `_` keys are skipped, and every other key gives ` k = v`. */
  function RemLines(keys: seq<string>, d: Dict<string, PyVal>): Result<seq<string>>
    decreases |keys|
  {
    if |keys| == 0 then Ok([])
    else if keys[0] == "" then Err(IndexError)
    else if keys[0][0] == '_' then RemLines(keys[1..], d)
    else
      match Get(d, keys[0])
      case None => Err(KeyError)
      case Some(v) =>
        match RemLines(keys[1..], d)
        case Err(e) => Err(e)
        case Ok(rest) => Ok([" " + keys[0] + " = " + ValueText(v)] + rest)
  }

  /** `inpfile_params_to_rem_string(d)`: the lines over the sorted keys,
      joined with newlines. */
  function RemString(d: Dict<string, PyVal>): Result<string>
  {
    match RemLines(Sorted(Keys(d)), d)
    case Err(e) => Err(e)
    case Ok(lines) => Ok(Join("\n", lines))
  }

  /** `block` followed by the outcome of the remaining keys. */
  function Then(block: seq<string>, rest: Result<seq<string>>): Result<seq<string>>
  {
    match rest
    case Err(e) => Err(e)
    case Ok(ls) => Ok(block + ls)
  }

  /** The loop of `inpfile_params_to_rem_string`. */
  method InpfileParamsToRemString(d: Dict<string, PyVal>) returns (r: Result<string>)
    ensures r == RemString(d)
  {
    var keys := Sorted(Keys(d));
    var block: seq<string> := [];
    var i := 0;
    assert keys[0..] == keys;
    match RemLines(keys, d) {
      case Ok(ls) => assert [] + ls == ls;
      case Err(_) =>
    }
    while i < |keys|
      invariant 0 <= i <= |keys|
      invariant RemLines(keys, d) == Then(block, RemLines(keys[i..], d))
    {
      var k := keys[i];
      assert keys[i..][1..] == keys[i + 1..];
      if k == "" {
        return Err(IndexError);
      }
      if k[0] != '_' {
        var v := Get(d, k);
        if v.None? {
          return Err(KeyError);
        }
        var text := ValueText(v.value);
        if v.value.Bool? {
          var b := BoolToStr(v.value);
          text := b.value;
        }
        assert text == ValueText(v.value);
        var line := " " + k + " = " + text;
        assert forall ls :: (block + [line]) + ls == block + ([line] + ls);
        block := block + [line];
      }
      i := i + 1;
    }
    assert keys[i..] == [];
    assert block + [] == block;
    r := Ok(Join("\n", block));
  }

  /** The public keys of `keys`, in order. */
  function Public(keys: seq<string>): (r: seq<string>)
    decreases |keys|
  {
    if |keys| == 0 then []
    else if keys[0] != "" && keys[0][0] == '_' then Public(keys[1..])
    else [keys[0]] + Public(keys[1..])
  }

  lemma {:induction false} PublicMembers(keys: seq<string>)
    ensures forall k :: k in Public(keys) <==> k in keys && !(k != "" && k[0] == '_')
    decreases |keys|
  {
    if |keys| > 0 {
      PublicMembers(keys[1..]);
      assert keys == [keys[0]] + keys[1..];
    }
  }

  /** Dropping the private keys keeps an increasing list increasing. */
  lemma {:induction false} PublicIncreasing(keys: seq<string>)
    requires Increasing(keys)
    ensures Increasing(Public(keys))
    decreases |keys|
  {
    if |keys| > 0 {
      PublicIncreasing(keys[1..]);
      PublicMembers(keys[1..]);
      var q := Public(keys[1..]);
      forall j | 0 <= j < |q| ensures Below(keys[0], q[j]) {
        assert q[j] in keys[1..];
        var b :| 0 <= b < |keys[1..]| && keys[1..][b] == q[j];
        assert keys[b + 1] == q[j];
      }
    }
  }

  /** Without an empty key the lines are ` k = v` for the public keys, in
      order, each with its value. */
  lemma {:induction false} RemLinesMeaning(keys: seq<string>, d: Dict<string, PyVal>)
    requires forall k :: k in keys ==> k != "" && k in Keys(d)
    ensures RemLines(keys, d).Ok?
    ensures |RemLines(keys, d).value| == |Public(keys)|
    ensures forall i :: 0 <= i < |Public(keys)| ==>
      Get(d, Public(keys)[i]).Some? &&
      RemLines(keys, d).value[i] == " " + Public(keys)[i] + " = " + ValueText(Get(d, Public(keys)[i]).value)
    decreases |keys|
  {
    if |keys| > 0 {
      assert keys[0] in keys;
      assert forall k :: k in keys[1..] ==> k in keys;
      RemLinesMeaning(keys[1..], d);
      GetMeaning(d, keys[0]);
      forall k | k in Public(keys) ensures Get(d, k).Some? {
        PublicMembers(keys);
        GetMeaning(d, k);
      }
    }
  }

  /** The rem string fails exactly when some key is empty; otherwise it
      lists every public key once, in increasing order. */
  lemma RemStringMeaning(d: Dict<string, PyVal>)
    requires DistinctKeys(d)
    ensures RemString(d).Err? <==> "" in Keys(d)
    ensures RemString(d).Err? ==> RemString(d).exc == IndexError
    ensures "" !in Keys(d) ==>
      RemString(d) == Ok(Join("\n", RemLines(Sorted(Keys(d)), d).value)) &&
      (forall k :: k in Public(Sorted(Keys(d))) <==> k in Keys(d) && k[0] != '_') &&
      Increasing(Public(Sorted(Keys(d))))
  {
    var keys := Keys(d);
    assert Distinct(keys);
    SortedMembers(keys);
    SortedSpec(keys);
    var s := Sorted(keys);
    if "" in keys {
      assert "" in s;
      EmptyFirstInSorted(s);
    } else {
      forall k | k in s ensures k != "" && k in Keys(d) {
      }
      RemLinesMeaning(s, d);
      PublicMembers(s);
      PublicIncreasing(s);
    }
  }

  /** In an increasing list holding the empty string, it comes first. */
  lemma EmptyFirstInSorted(s: seq<string>)
    requires Increasing(s) && "" in s
    ensures |s| > 0 && s[0] == ""
  {
    var m :| 0 <= m < |s| && s[m] == "";
    assert !Below(s[0], "");
    assert m == 0;
  }

  lemma RemLinesEmptyFirst(s: seq<string>, d: Dict<string, PyVal>)
    requires |s| > 0 && s[0] == ""
    ensures RemLines(s, d) == Err(IndexError)
  {
  }
}
