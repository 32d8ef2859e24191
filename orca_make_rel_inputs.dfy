/** Building ORCA relativistic-calculation option sets
    (orca_make_rel_inputs.py): settings are nested string-keyed
    dictionaries; defaults are merged recursively, every flag value of an
    option is crossed with every settings dictionary, and a dictionary of
    options becomes a `%name ... end` input block. */
module OrcaMakeRelInputs {
  import opened Py
  import opened Strs
  import opened ODict

  /** A settings value: a string, or a nested dictionary in insertion order. */
  datatype Value = Leaf(text: string) | Mapping(items: Dict<string, Value>)

  /** Every dictionary, at every depth, has distinct keys. */
  predicate WellFormed(v: Value)
    decreases v
  {
    match v
    case Leaf(_) => true
    case Mapping(items) =>
      DistinctKeys(items) && forall i :: 0 <= i < |items| ==> WellFormed(items[i].1)
  }

  /** `d.get(k, {})`. */
  function GetOrEmpty(d: Dict<string, Value>, k: string): Value
  {
    match Get(d, k)
    case Some(v) => v
    case None => Mapping([])
  }

  // ---------------------------------------------------------------------
  // update

  /** `update(d, u)` from the `i`-th item of `u` on: each mapping value is
      merged into `d.get(k, {})` recursively, every other value overwrites
      `d[k]`. Reaching a string where the source expects a dictionary fails
      as Python does: `d.get` on a string is an AttributeError, item
      assignment into a string a TypeError. */
  function UpdateFrom(d: Value, u: Value, i: nat): Result<Value>
    requires u.Mapping? && i <= |u.items|
    decreases u, |u.items| - i
  {
    if i == |u.items| then Ok(d)
    else
      var k := u.items[i].0;
      var v := u.items[i].1;
      match v
      case Mapping(_) =>
        if d.Leaf? then Err(AttributeError)
        else
          (match UpdateFrom(GetOrEmpty(d.items, k), v, 0)
           case Err(e) => Err(e)
           case Ok(merged) => UpdateFrom(Mapping(Set(d.items, k, merged)), u, i + 1))
      case Leaf(_) =>
        if d.Leaf? then Err(TypeError)
        else UpdateFrom(Mapping(Set(d.items, k, v)), u, i + 1)
  }

  /** `update(d, u)` for dictionaries `d` and `u`. */
  function Update(d: Dict<string, Value>, u: Dict<string, Value>): Result<Value>
  {
    UpdateFrom(Mapping(d), Mapping(u), 0)
  }

  /** What `update` leaves under each key, for the items of `u` from `i` on:
      keys `u` does not mention keep their value in `d`, a string value of
      `u` overwrites, and a mapping value of `u` is merged into what `d` held
      there (or into `{}`). The result is again a dictionary. */
  lemma {:induction false} UpdateFromPerKey(d: Value, u: Value, i: nat, r: Value)
    requires u.Mapping? && i <= |u.items| && DistinctKeys(u.items)
    requires d.Mapping? && UpdateFrom(d, u, i) == Ok(r)
    ensures r.Mapping?
    ensures forall k :: (forall j :: i <= j < |u.items| ==> u.items[j].0 != k) ==> Get(r.items, k) == Get(d.items, k)
    ensures forall j :: i <= j < |u.items| && u.items[j].1.Leaf? ==> Get(r.items, u.items[j].0) == Some(u.items[j].1)
    ensures forall j :: i <= j < |u.items| && u.items[j].1.Mapping? ==>
      (UpdateFrom(GetOrEmpty(d.items, u.items[j].0), u.items[j].1, 0).Ok?
       && Get(r.items, u.items[j].0) == Some(UpdateFrom(GetOrEmpty(d.items, u.items[j].0), u.items[j].1, 0).value))
    decreases |u.items| - i
  {
    if i < |u.items| {
      var k := u.items[i].0;
      var v := u.items[i].1;
      var x := if v.Leaf? then v else UpdateFrom(GetOrEmpty(d.items, k), v, 0).value;
      var d' := Mapping(Set(d.items, k, x));
      assert UpdateFrom(d', u, i + 1) == Ok(r);
      UpdateFromPerKey(d', u, i + 1, r);
      GetSetSame(d.items, k, x);
      forall k' | k' != k ensures Get(d'.items, k') == Get(d.items, k') {
        GetSetOther(d.items, k, x, k');
      }
      forall j | i < j < |u.items| ensures u.items[j].0 != k {
        assert u.items[i].0 != u.items[j].0;
      }
    }
  }

  /** `update({}, u)` rebuilds `u` itself: merging a well-formed dictionary
      into an empty one is a deep copy. */
  lemma UpdateIntoEmptyCopies(u: Value)
    requires u.Mapping? && WellFormed(u)
    ensures UpdateFrom(Mapping([]), u, 0) == Ok(u)
    decreases u
  {
    UpdateFromPrefixCopies(u, 0);
  }

  lemma {:induction false} UpdateFromPrefixCopies(u: Value, i: nat)
    requires u.Mapping? && WellFormed(u) && i <= |u.items|
    ensures UpdateFrom(Mapping(u.items[..i]), u, i) == Ok(u)
    decreases u, |u.items| - i
  {
    if i == |u.items| {
      assert u.items[..i] == u.items;
    } else {
      var k := u.items[i].0;
      var v := u.items[i].1;
      var front := u.items[..i];
      assert k !in Keys(front) by {
        forall j | 0 <= j < i ensures Keys(front)[j] != k {
          assert u.items[j].0 != u.items[i].0;
        }
      }
      GetMeaning(front, k);
      assert GetOrEmpty(front, k) == Mapping([]);
      assert WellFormed(v);
      if v.Mapping? {
        UpdateIntoEmptyCopies(v);
      }
      SetAppends(front, k, v);
      assert front + [(k, v)] == u.items[..i + 1];
      UpdateFromPrefixCopies(u, i + 1);
    }
  }

  /** The way the settings for one job are assembled: a copy of the
      defaults, then the specific choices merged over it. A choice leaves
      every default it does not mention in place. */
  lemma DefaultsThenChoices(defaults: Value, choices: Value, r: Value, k: string)
    requires defaults.Mapping? && WellFormed(defaults)
    requires choices.Mapping? && DistinctKeys(choices.items)
    requires UpdateFrom(defaults, choices, 0) == Ok(r)
    requires forall j :: 0 <= j < |choices.items| ==> choices.items[j].0 != k
    ensures UpdateFrom(Mapping([]), defaults, 0) == Ok(defaults)
    ensures r.Mapping? && Get(r.items, k) == Get(defaults.items, k)
  {
    UpdateIntoEmptyCopies(defaults);
    UpdateFromPerKey(defaults, choices, 0, r);
  }

  // ---------------------------------------------------------------------
  // add_flags_to_list_of_dicts

  /** `nd` holds a string, not a dictionary, under `blockTitle`. */
  predicate StringBlock(nd: Dict<string, Value>, blockTitle: string)
  {
    Get(nd, blockTitle).Some? && Get(nd, blockTitle).value.Leaf?
  }

  /** One output of `add_flags_to_list_of_dicts`: a copy of `nd` whose
      `[blockTitle][option]` is `flag`, the block being created when
      missing. Item assignment into a string block is a TypeError. */
  function SetFlag(nd: Dict<string, Value>, blockTitle: string, option: string, flag: string): Result<Dict<string, Value>>
  {
    var current: Option<Value> := Get(nd, blockTitle);
    match current
    case None => Ok(Set(nd, blockTitle, Mapping([(option, Leaf(flag))])))
    case Some(Mapping(block)) => Ok(Set(nd, blockTitle, Mapping(Set(block, option, Leaf(flag)))))
    case Some(Leaf(_)) => Err(TypeError)
  }

  /** The output has `flag` under `[blockTitle][option]`, and every other
      key, of the dictionary and of the block, is as it was. */
  lemma SetFlagMeaning(nd: Dict<string, Value>, blockTitle: string, option: string, flag: string)
    ensures SetFlag(nd, blockTitle, option, flag).Err? <==> StringBlock(nd, blockTitle)
    ensures SetFlag(nd, blockTitle, option, flag).Err? ==> SetFlag(nd, blockTitle, option, flag).exc == TypeError
    ensures SetFlag(nd, blockTitle, option, flag).Ok? ==>
      var r := SetFlag(nd, blockTitle, option, flag).value;
      (Get(r, blockTitle).Some? && Get(r, blockTitle).value.Mapping?
       && Get(Get(r, blockTitle).value.items, option) == Some(Leaf(flag))
       && (forall k :: k != blockTitle ==> Get(r, k) == Get(nd, k))
       && (forall k :: k != option && Get(nd, blockTitle).Some? ==>
             Get(Get(r, blockTitle).value.items, k) == Get(Get(nd, blockTitle).value.items, k)))
  {
    var current: Option<Value> := Get(nd, blockTitle);
    match current
    case None =>
      var block: Dict<string, Value> := [(option, Leaf(flag))];
      GetSetSame(nd, blockTitle, Mapping(block));
      forall k | k != blockTitle ensures Get(Set(nd, blockTitle, Mapping(block)), k) == Get(nd, k) {
        GetSetOther(nd, blockTitle, Mapping(block), k);
      }
    case Some(Mapping(block)) =>
      var nb := Set(block, option, Leaf(flag));
      GetSetSame(nd, blockTitle, Mapping(nb));
      GetSetSame(block, option, Leaf(flag));
      forall k | k != blockTitle ensures Get(Set(nd, blockTitle, Mapping(nb)), k) == Get(nd, k) {
        GetSetOther(nd, blockTitle, Mapping(nb), k);
      }
      forall k | k != option ensures Get(nb, k) == Get(block, k) {
        GetSetOther(block, option, Leaf(flag), k);
      }
    case Some(Leaf(_)) =>
  }

  /** Appends two outcomes, keeping the first error. */
  function Concat<T>(a: Result<seq<T>>, b: Result<seq<T>>): Result<seq<T>>
  {
    match a
    case Err(e) => Err(e)
    case Ok(x) => (match b case Err(e) => Err(e) case Ok(y) => Ok(x + y))
  }

  /** The first `j` outcomes of a row of steps, stopping at the first
      error as a raised exception does. */
  function Collect<T>(steps: seq<Result<T>>, j: nat): Result<seq<T>>
    requires j <= |steps|
  {
    if j == 0 then Ok([])
    else Concat(Collect(steps, j - 1), (match steps[j - 1] case Err(e) => Err(e) case Ok(x) => Ok([x])))
  }

  /** The first `f` rows, one after the other. */
  function CollectRows<T>(rows: seq<seq<Result<T>>>, f: nat): Result<seq<T>>
    requires f <= |rows|
  {
    if f == 0 then Ok([]) else Concat(CollectRows(rows, f - 1), Collect(rows[f - 1], |rows[f - 1]|))
  }

  /** The inner loop's steps for one flag: one `SetFlag` per dictionary. */
  function StepsFor(blockTitle: string, option: string, flag: string, dicts: seq<Dict<string, Value>>): (r: seq<Result<Dict<string, Value>>>)
    ensures |r| == |dicts|
  {
    seq(|dicts|, x requires 0 <= x < |dicts| => SetFlag(dicts[x], blockTitle, option, flag))
  }

  /** One row of steps per flag, flags outer. */
  function FlagRows(blockTitle: string, option: string, flags: seq<string>, dicts: seq<Dict<string, Value>>): (r: seq<seq<Result<Dict<string, Value>>>>)
    ensures |r| == |flags|
  {
    seq(|flags|, f requires 0 <= f < |flags| => StepsFor(blockTitle, option, flags[f], dicts))
  }

  /** The inner loop of `add_flags_to_list_of_dicts`, for one flag. */
  method FlagOverDicts(blockTitle: string, option: string, flag: string, dicts: seq<Dict<string, Value>>)
    returns (r: Result<seq<Dict<string, Value>>>)
    ensures r == Collect(StepsFor(blockTitle, option, flag, dicts), |dicts|)
  {
    ghost var steps := StepsFor(blockTitle, option, flag, dicts);
    var inner: seq<Dict<string, Value>> := [];
    for j := 0 to |dicts|
      invariant Collect(steps, j) == Ok(inner)
    {
      var nd := SetFlag(dicts[j], blockTitle, option, flag);
      assert steps[j] == nd;
      if nd.Err? {
        assert Collect(steps, j + 1) == Err(nd.exc);
        CollectErrSticks(steps, j + 1);
        return Err(nd.exc);
      }
      inner := inner + [nd.value];
    }
    r := Ok(inner);
  }

  /** `add_flags_to_list_of_dicts`: flags outer, dictionaries inner. The
      inputs are values, so they are left as they were, as the source's
      deep copies guarantee. */
  method AddFlagsToListOfDicts(blockTitle: string, option: string, flags: seq<string>, dicts: seq<Dict<string, Value>>)
    returns (r: Result<seq<Dict<string, Value>>>)
    ensures r == AddFlags(blockTitle, option, flags, dicts)
  {
    ghost var rows := FlagRows(blockTitle, option, flags, dicts);
    var out: seq<Dict<string, Value>> := [];
    for f := 0 to |flags|
      invariant CollectRows(rows, f) == Ok(out)
    {
      var inner := FlagOverDicts(blockTitle, option, flags[f], dicts);
      assert rows[f] == StepsFor(blockTitle, option, flags[f], dicts);
      if inner.Err? {
        assert CollectRows(rows, f + 1) == Err(inner.exc);
        CollectRowsErrSticks(rows, f + 1, inner.exc);
        return Err(inner.exc);
      }
      out := out + inner.value;
    }
    r := Ok(out);
  }

  lemma {:induction false} CollectErrSticks<T>(steps: seq<Result<T>>, j: nat)
    requires j <= |steps| && Collect(steps, j).Err?
    ensures Collect(steps, |steps|) == Collect(steps, j)
    decreases |steps| - j
  {
    if j < |steps| {
      CollectErrSticks(steps, j + 1);
    }
  }

  lemma {:induction false} CollectRowsErrSticks<T>(rows: seq<seq<Result<T>>>, f: nat, e: Exc)
    requires f <= |rows| && CollectRows(rows, f) == Err(e)
    ensures CollectRows(rows, |rows|) == Err(e)
    decreases |rows| - f
  {
    if f < |rows| {
      CollectRowsErrSticks(rows, f + 1, e);
    }
  }

  /** Collecting fails exactly when one of the steps failed, with that
      step's exception; otherwise it yields every step's value, in order. */
  lemma {:induction false} CollectMeaning<T>(steps: seq<Result<T>>, j: nat)
    requires j <= |steps|
    ensures Collect(steps, j).Err? <==> exists x :: 0 <= x < j && steps[x].Err?
    ensures Collect(steps, j).Err? ==> exists x :: 0 <= x < j && steps[x] == Err(Collect(steps, j).exc)
    ensures Collect(steps, j).Ok? ==>
      |Collect(steps, j).value| == j && forall x :: 0 <= x < j ==> steps[x] == Ok(Collect(steps, j).value[x])
    decreases j
  {
    if j > 0 {
      CollectMeaning(steps, j - 1);
      var front := Collect(steps, j - 1);
      if front.Ok? && steps[j - 1].Ok? {
        var s := Collect(steps, j).value;
        assert s == front.value + [steps[j - 1].value];
        forall x | 0 <= x < j ensures steps[x] == Ok(s[x]) {
          if x < j - 1 {
            assert s[x] == front.value[x];
          }
        }
      }
    }
  }

  /** `a * n`, written out by repeated addition so that positions inside a
      flattened table of rows stay linear facts. */
  function Mul(a: nat, n: nat): (r: nat)
    decreases a
  {
    if a == 0 then 0 else Mul(a - 1, n) + n
  }

  lemma {:induction false} MulIsProduct(a: nat, n: nat)
    ensures Mul(a, n) == a * n
    decreases a
  {
    if a > 0 {
      MulIsProduct(a - 1, n);
    }
  }

  /** Where step `x` of row `g` lands among the first `f` rows of `n`:
      inside them, and inside the first `f - 1` rows unless `g` is the last. */
  lemma {:induction false} RowPosition(g: nat, x: nat, f: nat, n: nat)
    requires g < f && x < n
    ensures Mul(g, n) + x < Mul(f, n)
    ensures g < f - 1 ==> Mul(g, n) + x < Mul(f - 1, n)
    decreases f - g
  {
    if g < f - 1 {
      RowPosition(g, x, f - 1, n);
    }
  }

  /** Rows of `n` steps each: collecting the first `f` rows fails exactly
      when one of their steps failed, with that step's exception; otherwise
      it yields `f * n` values, the value at `g * n + x` being that of step
      `x` of row `g`. */
  /** Step `x` of row `g` succeeded with the value at `g * n + x` of `s`. */
  ghost predicate StepPlaced<T>(rows: seq<seq<Result<T>>>, s: seq<T>, n: nat, g: nat, x: nat)
    requires g < |rows| && x < |rows[g]|
  {
    Mul(g, n) + x < |s| && rows[g][x] == Ok(s[Mul(g, n) + x])
  }

  lemma {:induction false} CollectRowsMeaning<T>(rows: seq<seq<Result<T>>>, n: nat, f: nat)
    requires f <= |rows|
    requires forall g :: 0 <= g < |rows| ==> |rows[g]| == n
    ensures CollectRows(rows, f).Err? <==> exists g, x :: 0 <= g < f && 0 <= x < n && rows[g][x].Err?
    ensures CollectRows(rows, f).Err? ==> exists g, x :: 0 <= g < f && 0 <= x < n && rows[g][x] == Err(CollectRows(rows, f).exc)
    ensures CollectRows(rows, f).Ok? ==> |CollectRows(rows, f).value| == Mul(f, n)
    ensures CollectRows(rows, f).Ok? ==>
      forall g, x :: 0 <= g < f && 0 <= x < n ==> StepPlaced(rows, CollectRows(rows, f).value, n, g, x)
    decreases f
  {
    if f > 0 {
      CollectRowsMeaning(rows, n, f - 1);
      CollectMeaning(rows[f - 1], n);
      var front := CollectRows(rows, f - 1);
      var last := Collect(rows[f - 1], n);
      if front.Ok? && last.Ok? {
        var s := CollectRows(rows, f).value;
        assert s == front.value + last.value;
        assert |s| == Mul(f - 1, n) + n == Mul(f, n);
        forall g, x | 0 <= g < f && 0 <= x < n ensures StepPlaced(rows, s, n, g, x) {
          RowPosition(g, x, f, n);
          if g < f - 1 {
            assert StepPlaced(rows, front.value, n, g, x);
            assert s[Mul(g, n) + x] == front.value[Mul(g, n) + x];
          } else {
            assert rows[g][x] == Ok(last.value[x]);
            assert s[Mul(g, n) + x] == last.value[x];
          }
        }
      } else if front.Ok? {
        var x :| 0 <= x < n && rows[f - 1][x] == Err(last.exc);
        assert rows[f - 1][x].Err?;
      }
    }
  }

  /** What `add_flags_to_list_of_dicts` returns. */
  function AddFlags(blockTitle: string, option: string, flags: seq<string>, dicts: seq<Dict<string, Value>>): Result<seq<Dict<string, Value>>>
  {
    CollectRows(FlagRows(blockTitle, option, flags, dicts), |flags|)
  }

  /** Row `g`, step `x` is dictionary `x` given flag `g`. */
  lemma FlagRowsAt(blockTitle: string, option: string, flags: seq<string>, dicts: seq<Dict<string, Value>>, g: nat, x: nat)
    requires g < |flags| && x < |dicts|
    ensures FlagRows(blockTitle, option, flags, dicts)[g][x] == SetFlag(dicts[x], blockTitle, option, flags[g])
  {
  }

  /** `add_flags_to_list_of_dicts` fails, with a TypeError, exactly when
      there is a flag and one of the dictionaries holds a string under
      `blockTitle`. */
  lemma {:induction false} AddFlagsFails(blockTitle: string, option: string, flags: seq<string>, dicts: seq<Dict<string, Value>>)
    ensures AddFlags(blockTitle, option, flags, dicts).Err? <==>
      |flags| > 0 && exists x :: 0 <= x < |dicts| && StringBlock(dicts[x], blockTitle)
    ensures AddFlags(blockTitle, option, flags, dicts).Err? ==> AddFlags(blockTitle, option, flags, dicts).exc == TypeError
  {
    var rows: seq<seq<Result<Dict<string, Value>>>> := FlagRows(blockTitle, option, flags, dicts);
    var n := |dicts|;
    CollectRowsMeaning(rows, n, |flags|);
    var r := AddFlags(blockTitle, option, flags, dicts);
    if r.Err? {
      var g, x :| 0 <= g < |flags| && 0 <= x < n && rows[g][x] == Err(r.exc);
      FlagRowsAt(blockTitle, option, flags, dicts, g, x);
      SetFlagMeaning(dicts[x], blockTitle, option, flags[g]);
    } else if |flags| > 0 {
      forall x | 0 <= x < n ensures !StringBlock(dicts[x], blockTitle) {
        FlagRowsAt(blockTitle, option, flags, dicts, 0, x);
        SetFlagMeaning(dicts[x], blockTitle, option, flags[0]);
      }
    }
  }

  /** Step `x` of row `g` in a successful collection of the first `f` rows. */
  lemma {:induction false} CollectRowsAt<T>(rows: seq<seq<Result<T>>>, n: nat, f: nat, g: nat, x: nat)
    requires f <= |rows|
    requires forall g :: 0 <= g < |rows| ==> |rows[g]| == n
    requires CollectRows(rows, f).Ok? && g < f && x < n
    ensures |CollectRows(rows, f).value| == Mul(f, n)
    ensures Mul(g, n) + x < |CollectRows(rows, f).value|
    ensures rows[g][x] == Ok(CollectRows(rows, f).value[Mul(g, n) + x])
  {
    CollectRowsMeaning(rows, n, f);
    assert StepPlaced(rows, CollectRows(rows, f).value, n, g, x);
  }

  /** Where dictionary `x` given flag `g` lands in a successful result. */
  lemma {:induction false} AddFlagsAt(blockTitle: string, option: string, flags: seq<string>, dicts: seq<Dict<string, Value>>, g: nat, x: nat)
    requires AddFlags(blockTitle, option, flags, dicts).Ok?
    requires g < |flags| && x < |dicts|
    ensures |AddFlags(blockTitle, option, flags, dicts).value| == Mul(|flags|, |dicts|)
    ensures Mul(g, |dicts|) + x < |AddFlags(blockTitle, option, flags, dicts).value|
    ensures SetFlag(dicts[x], blockTitle, option, flags[g]) == Ok(AddFlags(blockTitle, option, flags, dicts).value[Mul(g, |dicts|) + x])
  {
    var rows: seq<seq<Result<Dict<string, Value>>>> := FlagRows(blockTitle, option, flags, dicts);
    assert AddFlags(blockTitle, option, flags, dicts) == CollectRows(rows, |flags|);
    CollectRowsAt(rows, |dicts|, |flags|, g, x);
    FlagRowsAt(blockTitle, option, flags, dicts, g, x);
    assert rows[g][x] == SetFlag(dicts[x], blockTitle, option, flags[g]);
  }

  /** When it succeeds, `add_flags_to_list_of_dicts` yields one dictionary
      per flag and input dictionary. */
  lemma {:induction false} AddFlagsLength(blockTitle: string, option: string, flags: seq<string>, dicts: seq<Dict<string, Value>>)
    requires AddFlags(blockTitle, option, flags, dicts).Ok?
    ensures |AddFlags(blockTitle, option, flags, dicts).value| == |flags| * |dicts|
  {
    var rows: seq<seq<Result<Dict<string, Value>>>> := FlagRows(blockTitle, option, flags, dicts);
    CollectRowsMeaning(rows, |dicts|, |flags|);
    MulIsProduct(|flags|, |dicts|);
  }

  /** The dictionary at position `g * |dicts| + x` (`Mul(g, |dicts|) + x`)
      of `out` is dictionary `x` with `[blockTitle][option]` set to flag `g`. */
  predicate FlagPlaced(out: seq<Dict<string, Value>>, blockTitle: string, option: string, flags: seq<string>, dicts: seq<Dict<string, Value>>, g: nat, x: nat)
    requires g < |flags| && x < |dicts|
  {
    Mul(g, |dicts|) + x < |out| && SetFlag(dicts[x], blockTitle, option, flags[g]) == Ok(out[Mul(g, |dicts|) + x])
  }

  /** When it succeeds, `add_flags_to_list_of_dicts` lists the flagged
      dictionaries flags outer, dictionaries inner. */
  lemma {:induction false} AddFlagsOrder(blockTitle: string, option: string, flags: seq<string>, dicts: seq<Dict<string, Value>>)
    requires AddFlags(blockTitle, option, flags, dicts).Ok?
    ensures forall g, x :: 0 <= g < |flags| && 0 <= x < |dicts| ==>
      FlagPlaced(AddFlags(blockTitle, option, flags, dicts).value, blockTitle, option, flags, dicts, g, x)
  {
    forall g, x | 0 <= g < |flags| && 0 <= x < |dicts|
      ensures FlagPlaced(AddFlags(blockTitle, option, flags, dicts).value, blockTitle, option, flags, dicts, g, x)
    {
      AddFlagsAt(blockTitle, option, flags, dicts, g, x);
    }
  }

  // ---------------------------------------------------------------------
  // make_comma_sep_flags

  /** `make_comma_sep_flags`: the numbers joined by `,`, no spaces. */
  function MakeCommaSepFlags(l: seq<int>): string
  {
    Join(",", IntStrings(l))
  }

  /** Splitting the flag string at `,` and parsing each piece gives the
      numbers back: the separator never occurs inside a number. */
  lemma CommaSepFlagsRoundTrip(l: seq<int>)
    requires |l| > 0
    ensures |Split(MakeCommaSepFlags(l), ',')| == |l|
    ensures forall i :: 0 <= i < |l| ==> ParseInt(Split(MakeCommaSepFlags(l), ',')[i]) == Ok(l[i])
  {
    var xs := IntStrings(l);
    forall k | 0 <= k < |xs| ensures ',' !in xs[k] {
      IntToStringHasNoSeparator(l[k], ',');
    }
    SplitJoin(xs, ',');
    forall i | 0 <= i < |l| ensures ParseInt(xs[i]) == Ok(l[i]) {
      ParseIntOfIntToString(l[i]);
    }
  }

  // ---------------------------------------------------------------------
  // options_socflags

  /** `itertools.product(range(n0), range(n1), ...)`, in its order: the
      last position varies fastest. */
  function Product(ns: seq<nat>): seq<seq<int>>
    decreases |ns|
  {
    if |ns| == 0 then [[]] else PrefixEach(ns[0], Product(ns[1..]))
  }

  /** `[a] + t` for each `a` in `range(n)` (outer) and `t` in `ts` (inner). */
  function PrefixEach(n: nat, ts: seq<seq<int>>): (r: seq<seq<int>>)
    ensures |r| == n * |ts|
  {
    if n == 0 then []
    else
      assert (n - 1) * |ts| + |ts| == n * |ts|;
      PrefixEach(n - 1, ts) + seq(|ts|, j requires 0 <= j < |ts| => [n - 1] + ts[j])
  }

  /** The tuples of `PrefixEach(n, ts)` are exactly `[a] + t` with `a` in
      `range(n)` and `t` in `ts`. */
  lemma {:induction false} PrefixEachMembers(n: nat, ts: seq<seq<int>>)
    ensures forall t :: t in PrefixEach(n, ts) ==> |t| > 0 && 0 <= t[0] < n && t[1..] in ts
    ensures forall a, t :: 0 <= a < n && t in ts ==> [a] + t in PrefixEach(n, ts)
    decreases n
  {
    if n > 0 {
      PrefixEachMembers(n - 1, ts);
      var tail := seq(|ts|, j requires 0 <= j < |ts| => [n - 1] + ts[j]);
      assert PrefixEach(n, ts) == PrefixEach(n - 1, ts) + tail;
      forall t | t in tail ensures |t| > 0 && 0 <= t[0] < n && t[1..] in ts {
        var j :| 0 <= j < |tail| && tail[j] == t;
        assert t[1..] == ts[j];
      }
      forall t | t in ts ensures [n - 1] + t in tail {
        var j :| 0 <= j < |ts| && ts[j] == t;
        assert tail[j] == [n - 1] + t;
      }
    }
  }

  /** The product of the sizes. */
  function SizeProduct(ns: seq<nat>): nat
  {
    if |ns| == 0 then 1 else ns[0] * SizeProduct(ns[1..])
  }

  /** The tuples in range, entry by entry. */
  predicate InRanges(t: seq<int>, ns: seq<nat>)
  {
    |t| == |ns| && forall k :: 0 <= k < |ns| ==> 0 <= t[k] < ns[k] as int
  }

  /** The product has `SizeProduct(ns)` tuples, and they are exactly the
      tuples whose `k`-th entry is in `range(ns[k])`. */
  lemma {:induction false} ProductMeaning(ns: seq<nat>)
    ensures |Product(ns)| == SizeProduct(ns)
    ensures forall t :: t in Product(ns) <==> InRanges(t, ns)
    decreases |ns|
  {
    if |ns| > 0 {
      var rest := Product(ns[1..]);
      ProductMeaning(ns[1..]);
      PrefixEachMembers(ns[0], rest);
      forall t ensures t in Product(ns) <==> InRanges(t, ns) {
        if t in Product(ns) {
          assert InRanges(t[1..], ns[1..]);
          forall k | 0 <= k < |ns| ensures 0 <= t[k] < ns[k] as int {
            if k > 0 {
              assert t[k] == t[1..][k - 1];
            }
          }
        }
        if InRanges(t, ns) {
          assert InRanges(t[1..], ns[1..]) by {
            forall k | 0 <= k < |ns| - 1 ensures 0 <= t[1..][k] < ns[1..][k] as int {
              assert t[1..][k] == t[k + 1];
            }
          }
          assert t == [t[0]] + t[1..];
        }
      }
    }
  }

  /** `options_socflags`. */
  function OptionsSocflags(): seq<seq<int>>
  {
    Product([1 + 1, 4 + 1, 4 + 1, 1 + 1])
  }

  /** There are 2 * 5 * 5 * 2 = 100 SOC flag tuples: all four-entry tuples
      with the first and last entry in `range(2)` and the middle two in
      `range(5)`. */
  lemma OptionsSocflagsShape()
    ensures |OptionsSocflags()| == 100
    ensures forall t :: t in OptionsSocflags() <==>
      |t| == 4 && 0 <= t[0] < 2 && 0 <= t[1] < 5 && 0 <= t[2] < 5 && 0 <= t[3] < 2
  {
    var ns: seq<nat> := [2, 5, 5, 2];
    assert OptionsSocflags() == Product(ns);
    ProductMeaning(ns);
    SocflagsSize(ns);
    forall t ensures InRanges(t, ns) <==> |t| == 4 && 0 <= t[0] < 2 && 0 <= t[1] < 5 && 0 <= t[2] < 5 && 0 <= t[3] < 2 {
      InRangesFour(t, ns);
    }
  }

  lemma InRangesFour(t: seq<int>, ns: seq<nat>)
    requires |ns| == 4
    ensures InRanges(t, ns) <==>
      |t| == 4 && 0 <= t[0] < ns[0] as int && 0 <= t[1] < ns[1] as int && 0 <= t[2] < ns[2] as int && 0 <= t[3] < ns[3] as int
  {
    if |t| == 4 && 0 <= t[0] < ns[0] as int && 0 <= t[1] < ns[1] as int && 0 <= t[2] < ns[2] as int && 0 <= t[3] < ns[3] as int {
      forall k | 0 <= k < 4 ensures 0 <= t[k] < ns[k] as int {
        assert k == 0 || k == 1 || k == 2 || k == 3;
      }
    }
  }

  lemma SocflagsSize(ns: seq<nat>)
    requires ns == [2, 5, 5, 2]
    ensures SizeProduct(ns) == 100
  {
    assert ns[1..] == [5, 5, 2] && ns[1..][1..] == [5, 2] && ns[1..][1..][1..] == [2];
    assert SizeProduct([2]) == 2;
    assert SizeProduct([5, 2]) == 10;
  }

  // ---------------------------------------------------------------------
  // make_block

  /** The lines of the block for `block_name` and the options `d`. */
  function BlockLines(blockName: string, d: Dict<string, string>): (r: seq<string>)
  {
    ["%" + blockName] + seq(|d|, i requires 0 <= i < |d| => " " + d[i].0 + " " + d[i].1) + [" end"]
  }

  /** `make_block`: the header, one ` k v` line per option in order, and
      ` end`, joined by newlines. */
  method MakeBlock(blockName: string, d: Dict<string, string>) returns (r: string)
    ensures r == Join("\n", BlockLines(blockName, d))
  {
    var block := ["%" + blockName];
    for i := 0 to |d|
      invariant block == ["%" + blockName] + seq(i, j requires 0 <= j < i => " " + d[j].0 + " " + d[j].1)
    {
      var (k, v) := d[i];
      block := block + [" " + k + " " + v];
    }
    block := block + [" end"];
    r := Join("\n", block);
  }

  /** Read back line by line, a block has `%name` first, ` end` last and the
      options in order between, provided no name, key or value holds a
      newline. */
  lemma BlockLinesReadBack(blockName: string, d: Dict<string, string>)
    requires '\n' !in blockName
    requires forall i :: 0 <= i < |d| ==> '\n' !in d[i].0 && '\n' !in d[i].1
    ensures var lines := Split(Join("\n", BlockLines(blockName, d)), '\n');
      |lines| == |d| + 2 && lines[0] == "%" + blockName && lines[|d| + 1] == " end"
      && forall i :: 0 <= i < |d| ==> lines[i + 1] == " " + d[i].0 + " " + d[i].1
  {
    var xs := BlockLines(blockName, d);
    forall k | 0 <= k < |xs| ensures '\n' !in xs[k] {
      if 0 < k < |xs| - 1 {
        assert xs[k] == " " + d[k - 1].0 + " " + d[k - 1].1;
      }
    }
    SplitJoin(xs, '\n');
  }
}
