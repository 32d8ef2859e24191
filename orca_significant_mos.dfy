/** orca_significant_mos.py: collecting the per-atom orbital contributions
    of ORCA's reduced MO population blocks under their MO index, keeping
    those above a threshold, and looking up the energies printed with each
    MO. */
module OrcaSignificantMos {
  import opened Py
  import opened Strs
  import opened ODict

  /** One contribution: `(idx_atom, element, orbital_name, contrib, spin)`,
      the spin being 0 for alpha and 1 for beta. */
  datatype Entry = Entry(idxAtom: int, element: string, orbitalName: string, contrib: real, spin: int)

  /** The `orbitals` dictionary: MO index to its contributions, in the
      order they were read. */
  type Orbitals = Dict<int, seq<Entry>>

  /** The list stored under `mo`, or the empty list when there is none. */
  function ListAt(d: Orbitals, mo: int): seq<Entry>
  {
    match Get(d, mo)
    case None => []
    case Some(l) => l
  }

  // ---------------------------------------------------------------------
  // Appending one entry

  /** `orbitals[mo].append(entry)`, or `orbitals[mo] = [entry]` when the
      lookup raises KeyError. */
  function AppendEntry(d: Orbitals, mo: int, e: Entry): Orbitals
  {
    match Get(d, mo)
    case Some(l) => Set(d, mo, l + [e])
    case None => Set(d, mo, [e])
  }

  /** The entry ends the list of its MO, which is created when absent;
      the entries already there are kept, no other MO changes, a new MO
      comes last in the dictionary, and the keys stay distinct. */
  lemma AppendEntryMeaning(d: Orbitals, mo: int, e: Entry)
    ensures Get(AppendEntry(d, mo, e), mo) == Some(ListAt(d, mo) + [e])
    ensures forall m :: m != mo ==> Get(AppendEntry(d, mo, e), m) == Get(d, m)
    ensures Keys(AppendEntry(d, mo, e)) == if mo in Keys(d) then Keys(d) else Keys(d) + [mo]
    ensures DistinctKeys(d) ==> DistinctKeys(AppendEntry(d, mo, e))
  {
    var v := ListAt(d, mo) + [e];
    if Get(d, mo).None? {
      assert v == [e];
    }
    assert AppendEntry(d, mo, e) == Set(d, mo, v);
    GetSetSame(d, mo, v);
    forall m | m != mo
      ensures Get(AppendEntry(d, mo, e), m) == Get(d, m)
    {
      GetSetOther(d, mo, v, m);
    }
    SetKeys(d, mo, v);
    if DistinctKeys(d) {
      SetDistinct(d, mo, v);
    }
  }

  // ---------------------------------------------------------------------
  // parse_line

  /** `list(map(float, ts))`, with `float` given as `toFloat` (`None` for a
      text it rejects): every value, or nothing when some text is not a
      number. */
  function Floats(ts: seq<string>, toFloat: string -> Option<real>): (r: Option<seq<real>>)
    ensures r.Some? <==> forall k :: 0 <= k < |ts| ==> toFloat(ts[k]).Some?
    ensures r.Some? ==> |r.value| == |ts| && forall k :: 0 <= k < |ts| ==> toFloat(ts[k]) == Some(r.value[k])
    decreases |ts|
  {
    if |ts| == 0 then Some([])
    else
      match toFloat(ts[0])
      case None => None
      case Some(x) =>
        match Floats(ts[1..], toFloat)
        case None => None
        case Some(xs) => Some([x] + xs)
  }

  /** The entries of a line, one per contribution, in order. */
  function LineEntries(idxAtom: int, element: string, orbitalName: string, contribs: seq<real>, spin: int): seq<Entry>
  {
    seq(|contribs|, k requires 0 <= k < |contribs| => Entry(idxAtom, element, orbitalName, contribs[k], spin))
  }

  /** Appending `es[k]` under MO `first + k`, for k in order. */
  function AddEntries(d: Orbitals, first: int, es: seq<Entry>): Orbitals
    decreases |es|
  {
    if |es| == 0 then d
    else AppendEntry(AddEntries(d, first, es[..|es| - 1]), first + |es| - 1, es[|es| - 1])
  }

  lemma AddEntriesStep(d: Orbitals, first: int, es: seq<Entry>, i: nat)
    requires i < |es|
    ensures AddEntries(d, first, es[..i + 1]) == AppendEntry(AddEntries(d, first, es[..i]), first + i, es[i])
  {
    assert es[..i + 1][..i] == es[..i];
  }

  /** Each MO in `first .. first + |es| - 1` gets its one entry appended to
      what it held, and every other MO is unchanged. */
  lemma {:induction false} AddEntriesMeaning(d: Orbitals, first: int, es: seq<Entry>)
    ensures forall m :: first <= m < first + |es| ==> Get(AddEntries(d, first, es), m) == Some(ListAt(d, m) + [es[m - first]])
    ensures forall m :: !(first <= m < first + |es|) ==> Get(AddEntries(d, first, es), m) == Get(d, m)
    ensures DistinctKeys(d) ==> DistinctKeys(AddEntries(d, first, es))
    decreases |es|
  {
    if |es| > 0 {
      var p := es[..|es| - 1];
      var mo := first + |es| - 1;
      var last := es[|es| - 1];
      AddEntriesMeaning(d, first, p);
      var a := AddEntries(d, first, p);
      var r := AddEntries(d, first, es);
      assert r == AppendEntry(a, mo, last);
      AppendEntryMeaning(a, mo, last);
      assert Get(a, mo) == Get(d, mo);
      assert ListAt(a, mo) == ListAt(d, mo);
      forall m | first <= m < first + |es|
        ensures Get(r, m) == Some(ListAt(d, m) + [es[m - first]])
      {
        if m < mo {
          assert Get(r, m) == Get(a, m);
          assert p[m - first] == es[m - first];
        }
      }
      forall m | !(first <= m < first + |es|)
        ensures Get(r, m) == Get(d, m)
      {
        assert Get(r, m) == Get(a, m);
      }
    }
  }

  /** What a line with atom index `idxAtom`, element, orbital name and
      contributions `contribs` does to the dictionary: with n
      contributions, the k-th entry goes to MO `max_mo_index - n + k`. */
  function LineUpdate(d: Orbitals, idxAtom: int, element: string, orbitalName: string, contribs: seq<real>,
                      maxMoIndex: int, spin: int): Orbitals
  {
    AddEntries(d, maxMoIndex - |contribs|, LineEntries(idxAtom, element, orbitalName, contribs, spin))
  }

  /** `parse_line` on the tokens `split` of its line, as a function of the
      dictionary before it: the dictionary after it, or the exception.
      `int(split[0])`, the element, the orbital name and every `float` are
      read before anything is appended, so an exception leaves the
      dictionary as it was. */
  function ParsedTokens(d: Orbitals, split: seq<string>, maxMoIndex: int, spin: int,
                        toFloat: string -> Option<real>): Result<Orbitals>
  {
    if |split| == 0 then Err(IndexError)
    else
      match ParseInt(split[0])
      case Err(e) => Err(e)
      case Ok(idxAtom) =>
        if |split| < 3 then Err(IndexError)
        else
          match Floats(split[3..], toFloat)
          case None => Err(ValueError)
          case Some(contribs) => Ok(LineUpdate(d, idxAtom, split[1], split[2], contribs, maxMoIndex, spin))
  }

  /** A line fails exactly when it has fewer than three tokens, its first
      token is not an integer or a contribution is not a number, and then
      with IndexError or ValueError; otherwise its update is made from the
      atom index, the element, the orbital name and the contributions. */
  lemma ParseLineFails(d: Orbitals, split: seq<string>, maxMoIndex: int, spin: int, toFloat: string -> Option<real>)
    ensures ParsedTokens(d, split, maxMoIndex, spin, toFloat).Ok? <==>
      |split| >= 3 && ParseInt(split[0]).Ok? && forall k :: 3 <= k < |split| ==> toFloat(split[k]).Some?
    ensures ParsedTokens(d, split, maxMoIndex, spin, toFloat).Err? ==>
      ParsedTokens(d, split, maxMoIndex, spin, toFloat).exc in {IndexError, ValueError}
    ensures ParsedTokens(d, split, maxMoIndex, spin, toFloat).Ok? ==>
      ParsedTokens(d, split, maxMoIndex, spin, toFloat).value ==
        LineUpdate(d, ParseInt(split[0]).value, split[1], split[2], Floats(split[3..], toFloat).value, maxMoIndex, spin)
  {
    if |split| >= 3 {
      var rest := split[3..];
      forall k | 3 <= k < |split|
        ensures rest[k - 3] == split[k]
      {
      }
    }
  }

  /** With n contributions, the k-th goes to MO `max_mo_index - n + k`,
      appended after what that MO already held (a new list when there was
      none); every other MO is unchanged and the keys stay distinct. */
  lemma LineUpdateMeaning(d: Orbitals, idxAtom: int, element: string, orbitalName: string, contribs: seq<real>,
                          maxMoIndex: int, spin: int)
    ensures forall k :: 0 <= k < |contribs| ==>
      Get(LineUpdate(d, idxAtom, element, orbitalName, contribs, maxMoIndex, spin), maxMoIndex - |contribs| + k) ==
        Some(ListAt(d, maxMoIndex - |contribs| + k) + [Entry(idxAtom, element, orbitalName, contribs[k], spin)])
    ensures forall m :: !(maxMoIndex - |contribs| <= m < maxMoIndex) ==>
      Get(LineUpdate(d, idxAtom, element, orbitalName, contribs, maxMoIndex, spin), m) == Get(d, m)
    ensures DistinctKeys(d) ==> DistinctKeys(LineUpdate(d, idxAtom, element, orbitalName, contribs, maxMoIndex, spin))
  {
    var first := maxMoIndex - |contribs|;
    var es := LineEntries(idxAtom, element, orbitalName, contribs, spin);
    var r := AddEntries(d, first, es);
    assert LineUpdate(d, idxAtom, element, orbitalName, contribs, maxMoIndex, spin) == r;
    assert |es| == |contribs|;
    AddEntriesMeaning(d, first, es);
    forall k | 0 <= k < |contribs|
      ensures Get(r, first + k) == Some(ListAt(d, first + k) + [Entry(idxAtom, element, orbitalName, contribs[k], spin)])
    {
      assert first <= first + k < first + |es|;
      assert es[first + k - first] == Entry(idxAtom, element, orbitalName, contribs[k], spin);
    }
  }

  // ---------------------------------------------------------------------
  // get_orbital_contribs_within_threshold

  /** The contributions of `l` at or above the threshold, in order. */
  function Kept(l: seq<Entry>, threshold: real): (r: seq<Entry>)
    ensures |r| <= |l|
    decreases |l|
  {
    if |l| == 0 then []
    else
      var last := l[|l| - 1];
      Kept(l[..|l| - 1], threshold) + (if last.contrib >= threshold then [last] else [])
  }

  /** The kept contributions are exactly those of the list that reach the
      threshold. */
  lemma {:induction false} KeptMembers(l: seq<Entry>, threshold: real)
    ensures forall e :: e in Kept(l, threshold) <==> e in l && e.contrib >= threshold
    decreases |l|
  {
    if |l| > 0 {
      KeptMembers(l[..|l| - 1], threshold);
      assert l == l[..|l| - 1] + [l[|l| - 1]];
    }
  }

  /** Filtering commutes with concatenation, so the kept contributions
      come in the order of the list. */
  lemma {:induction false} KeptConcat(a: seq<Entry>, b: seq<Entry>, threshold: real)
    ensures Kept(a + b, threshold) == Kept(a, threshold) + Kept(b, threshold)
    decreases |b|
  {
    if |b| == 0 {
      assert a + b == a;
    } else {
      var p := b[..|b| - 1];
      var last := b[|b| - 1];
      KeptConcat(a, p, threshold);
      var tail := if last.contrib >= threshold then [last] else [];
      assert (a + b)[..|a + b| - 1] == a + p;
      assert (a + b)[|a + b| - 1] == last;
      assert Kept(a + b, threshold) == Kept(a + p, threshold) + tail;
      assert Kept(b, threshold) == Kept(p, threshold) + tail;
    }
  }

  /** A list whose contributions all reach the threshold is kept whole. */
  lemma {:induction false} KeptAll(l: seq<Entry>, threshold: real)
    requires forall k :: 0 <= k < |l| ==> l[k].contrib >= threshold
    ensures Kept(l, threshold) == l
    decreases |l|
  {
    if |l| > 0 {
      KeptAll(l[..|l| - 1], threshold);
      assert l == l[..|l| - 1] + [l[|l| - 1]];
    }
  }

  /** The inner loop: each contribution of `cs` that reaches the threshold
      appended under `mo`. */
  function AddKept(acc: Orbitals, mo: int, cs: seq<Entry>, threshold: real): Orbitals
    decreases |cs|
  {
    if |cs| == 0 then acc
    else
      var a := AddKept(acc, mo, cs[..|cs| - 1], threshold);
      if cs[|cs| - 1].contrib >= threshold then AppendEntry(a, mo, cs[|cs| - 1]) else a
  }

  lemma AddKeptStep(acc: Orbitals, mo: int, cs: seq<Entry>, j: nat, threshold: real)
    requires j < |cs|
    ensures AddKept(acc, mo, cs[..j + 1], threshold) ==
      if cs[j].contrib >= threshold then AppendEntry(AddKept(acc, mo, cs[..j], threshold), mo, cs[j])
      else AddKept(acc, mo, cs[..j], threshold)
  {
    assert cs[..j + 1][..j] == cs[..j];
  }

  /** The kept contributions end the list of `mo`, which is left as it was
      (absent included) when none is kept; no other MO changes. */
  lemma {:induction false} AddKeptMeaning(acc: Orbitals, mo: int, cs: seq<Entry>, threshold: real)
    ensures Get(AddKept(acc, mo, cs, threshold), mo) ==
      if Kept(cs, threshold) == [] then Get(acc, mo) else Some(ListAt(acc, mo) + Kept(cs, threshold))
    ensures forall m :: m != mo ==> Get(AddKept(acc, mo, cs, threshold), m) == Get(acc, m)
    ensures DistinctKeys(acc) ==> DistinctKeys(AddKept(acc, mo, cs, threshold))
    decreases |cs|
  {
    if |cs| > 0 {
      var p := cs[..|cs| - 1];
      var last := cs[|cs| - 1];
      AddKeptMeaning(acc, mo, p, threshold);
      var a := AddKept(acc, mo, p, threshold);
      var x := ListAt(acc, mo);
      var kp := Kept(p, threshold);
      if last.contrib >= threshold {
        assert Kept(cs, threshold) == kp + [last];
        AppendEntryMeaning(a, mo, last);
        if kp == [] {
          assert x + kp == x;
        }
        assert ListAt(a, mo) == x + kp;
        assert (x + kp) + [last] == x + (kp + [last]);
      } else {
        assert Kept(cs, threshold) == kp + [];
        assert kp + [] == kp;
      }
    }
  }

  /** The outer loop over the MOs in dictionary order: an MO above
      `max_orbital` is skipped. */
  function FilterFrom(d: Orbitals, threshold: real, maxOrbital: int): Orbitals
    decreases |d|
  {
    if |d| == 0 then []
    else
      var a := FilterFrom(d[..|d| - 1], threshold, maxOrbital);
      var (mo, l) := d[|d| - 1];
      if mo <= maxOrbital then AddKept(a, mo, l, threshold) else a
  }

  lemma FilterStep(d: Orbitals, i: nat, threshold: real, maxOrbital: int)
    requires i < |d|
    ensures FilterFrom(d[..i + 1], threshold, maxOrbital) ==
      if d[i].0 <= maxOrbital then AddKept(FilterFrom(d[..i], threshold, maxOrbital), d[i].0, d[i].1, threshold)
      else FilterFrom(d[..i], threshold, maxOrbital)
  {
    assert d[..i + 1][..i] == d[..i];
  }

  /** What survives of MO `mo` of `d`: its kept contributions, when it is
      at most `max_orbital` and one of them reaches the threshold. */
  function Survives(d: Orbitals, mo: int, threshold: real, maxOrbital: int): Option<seq<Entry>>
  {
    match Get(d, mo)
    case None => None
    case Some(l) => if mo <= maxOrbital && Kept(l, threshold) != [] then Some(Kept(l, threshold)) else None
  }

  lemma GetSnoc(d: Orbitals, k: int, l: seq<Entry>, m: int)
    requires k !in Keys(d)
    ensures Get(d + [(k, l)], m) == if m == k then Some(l) else Get(d, m)
  {
    SetAppends(d, k, l);
    if m == k {
      GetSetSame(d, k, l);
    } else {
      GetSetOther(d, k, l, m);
    }
  }

  /** For a dictionary (distinct keys) the filter holds exactly the MOs
      at most `max_orbital` with a contribution reaching the threshold,
      each with those contributions in their order; no MO is left with an
      empty list. */
  lemma {:induction false} FilterMeaning(d: Orbitals, threshold: real, maxOrbital: int)
    requires DistinctKeys(d)
    ensures forall mo :: Get(FilterFrom(d, threshold, maxOrbital), mo) == Survives(d, mo, threshold, maxOrbital)
    ensures DistinctKeys(FilterFrom(d, threshold, maxOrbital))
    decreases |d|
  {
    if |d| > 0 {
      var p := d[..|d| - 1];
      var (k, l) := d[|d| - 1];
      assert d == p + [(k, l)];
      FilterMeaning(p, threshold, maxOrbital);
      var a := FilterFrom(p, threshold, maxOrbital);
      assert k !in Keys(p) by {
        forall i | 0 <= i < |p| ensures Keys(p)[i] != k {
          assert d[i].0 != d[|d| - 1].0;
        }
      }
      GetMeaning(p, k);
      assert Get(a, k) == None;
      if k <= maxOrbital {
        AddKeptMeaning(a, k, l, threshold);
      }
      var r := FilterFrom(d, threshold, maxOrbital);
      assert r == if k <= maxOrbital then AddKept(a, k, l, threshold) else a;
      forall mo
        ensures Get(r, mo) == Survives(d, mo, threshold, maxOrbital)
      {
        GetSnoc(p, k, l, mo);
        if mo == k {
          assert Get(d, k) == Some(l);
          if k <= maxOrbital {
            assert ListAt(a, k) == [];
            assert [] + Kept(l, threshold) == Kept(l, threshold);
          }
        } else {
          assert Get(d, mo) == Get(p, mo);
          assert Get(r, mo) == Get(a, mo);
        }
      }
    }
  }

  /** No MO of the filter's result holds an empty list. */
  lemma FilterNoEmptyLists(d: Orbitals, threshold: real, maxOrbital: int)
    requires DistinctKeys(d)
    ensures forall i :: 0 <= i < |FilterFrom(d, threshold, maxOrbital)| ==>
      FilterFrom(d, threshold, maxOrbital)[i].1 != []
  {
    var r := FilterFrom(d, threshold, maxOrbital);
    FilterMeaning(d, threshold, maxOrbital);
    forall i | 0 <= i < |r|
      ensures r[i].1 != []
    {
      var mo := r[i].0;
      GetMeaning(r, mo);
      assert Keys(r)[i] == mo;
      var j :| 0 <= j < |r| && r[j] == (mo, Get(r, mo).value);
      assert j == i;
    }
  }

  // ---------------------------------------------------------------------
  // The dictionary the parsing fills in place

  /** The `orbitals` dictionary `main` creates empty and `parse_line`
      appends to in place. */
  class OrbitalTable {
    var orbitals: Orbitals

    constructor ()
      ensures orbitals == []
    {
      orbitals := [];
    }

    /** `parse_line(line, max_mo_index, orbitals, spin)`: appends the
        line's entries in place, or raises with the dictionary unchanged. */
    method ParseLine(line: string, maxMoIndex: int, spin: int, toFloat: string -> Option<real>)
      returns (r: Result<()>)
      modifies this
      ensures ParsedTokens(old(orbitals), SplitWs(line), maxMoIndex, spin, toFloat).Err? ==>
        r == Err(ParsedTokens(old(orbitals), SplitWs(line), maxMoIndex, spin, toFloat).exc) && orbitals == old(orbitals)
      ensures ParsedTokens(old(orbitals), SplitWs(line), maxMoIndex, spin, toFloat).Ok? ==>
        r == Ok(()) && orbitals == ParsedTokens(old(orbitals), SplitWs(line), maxMoIndex, spin, toFloat).value
    {
      var split := SplitWs(line);
      if |split| == 0 {
        return Err(IndexError);
      }
      var idxAtom := ParseInt(split[0]);
      if idxAtom.Err? {
        return Err(idxAtom.exc);
      }
      if |split| < 3 {
        return Err(IndexError);
      }
      var element := split[1];
      var orbitalName := split[2];
      var parsed := Floats(split[3..], toFloat);
      if parsed.None? {
        return Err(ValueError);
      }
      AddLineEntries(idxAtom.value, element, orbitalName, parsed.value, maxMoIndex, spin);
      r := Ok(());
    }

    /** The `for i, contrib in enumerate(contribs)` loop of `parse_line`:
        each entry appended under its MO index, creating the list on
        KeyError. */
    method AddLineEntries(idxAtom: int, element: string, orbitalName: string, contribs: seq<real>,
                          maxMoIndex: int, spin: int)
      modifies this
      ensures orbitals == LineUpdate(old(orbitals), idxAtom, element, orbitalName, contribs, maxMoIndex, spin)
    {
      var first := maxMoIndex - |contribs|;
      ghost var es := LineEntries(idxAtom, element, orbitalName, contribs, spin);
      var i := 0;
      while i < |contribs|
        invariant 0 <= i <= |contribs|
        invariant orbitals == AddEntries(old(orbitals), first, es[..i])
      {
        var entry := Entry(idxAtom, element, orbitalName, contribs[i], spin);
        AddEntriesStep(old(orbitals), first, es, i);
        var current := Get(orbitals, first + i);
        match current {
          case Some(l) => orbitals := Set(orbitals, first + i, l + [entry]);
          case None => orbitals := Set(orbitals, first + i, [entry]);
        }
        i := i + 1;
      }
      assert es[..i] == es;
    }

    /** `get_orbital_contribs_within_threshold(orbitals, threshold,
        max_orbital)`: builds a new dictionary; the method has no
        `modifies` clause, so the parsed dictionary is left untouched. */
    method WithinThreshold(threshold: real, maxOrbital: int) returns (r: Orbitals)
      ensures r == FilterFrom(orbitals, threshold, maxOrbital)
    {
      r := [];
      var i := 0;
      while i < |orbitals|
        invariant 0 <= i <= |orbitals|
        invariant r == FilterFrom(orbitals[..i], threshold, maxOrbital)
      {
        var (mo, l) := orbitals[i];
        FilterStep(orbitals, i, threshold, maxOrbital);
        if mo <= maxOrbital {
          ghost var before := r;
          var j := 0;
          while j < |l|
            invariant 0 <= j <= |l|
            invariant r == AddKept(before, mo, l[..j], threshold)
          {
            AddKeptStep(before, mo, l, j, threshold);
            if l[j].contrib >= threshold {
              var current := Get(r, mo);
              match current {
                case Some(cs) => r := Set(r, mo, cs + [l[j]]);
                case None => r := Set(r, mo, [l[j]]);
              }
            }
            j := j + 1;
          }
          assert l[..j] == l;
        }
        i := i + 1;
      }
      assert orbitals[..i] == orbitals;
    }
  }

  // ---------------------------------------------------------------------
  // The energies printed with each MO

  /** Python's `s[i]`: a negative index counts from the end, and an index
      outside the list raises IndexError. */
  function PyIndex<T>(s: seq<T>, i: int): (r: Result<T>)
    ensures r.Ok? <==> -|s| <= i < |s|
    ensures r.Err? ==> r.exc == IndexError
  {
    if 0 <= i < |s| then Ok(s[i])
    else if -|s| <= i < 0 then Ok(s[|s| + i])
    else Err(IndexError)
  }

  /** The `header_dict` energies of MO `key` in `pretty_print_orbitals`:
      `energies[key]` and `energies[key + has_beta * nmo]`, both looked up
      whether or not the beta one is printed. */
  function HeaderEnergies(energies: seq<real>, key: int, nmo: int, hasBeta: bool): Result<(real, real)>
  {
    match PyIndex(energies, key)
    case Err(e) => Err(e)
    case Ok(a) =>
      match PyIndex(energies, key + (if hasBeta then nmo else 0))
      case Err(e) => Err(e)
      case Ok(b) => Ok((a, b))
  }

  /** With beta orbitals the energies are the `nmo` alpha energies followed
      by the `nmo` beta ones, and MO k is printed with alpha energy
      `energies[k]` and beta energy `energies[k + nmo]`. */
  lemma BetaEnergyOfMo(alpha: seq<real>, beta: seq<real>, k: int)
    requires |alpha| == |beta| && 0 <= k < |alpha|
    ensures HeaderEnergies(alpha + beta, k, |alpha|, true) == Ok((alpha[k], beta[k]))
  {
    assert (alpha + beta)[k + |alpha|] == beta[k];
  }

  /** Without beta orbitals the second energy looked up is the alpha one
      again, so it never fails on its own. */
  lemma NoBetaRepeatsAlpha(energies: seq<real>, k: int, nmo: int)
    requires 0 <= k < |energies|
    ensures HeaderEnergies(energies, k, nmo, false) == Ok((energies[k], energies[k]))
  {
  }

  /** With beta orbitals but only the alpha energies read, every MO's
      header raises IndexError. */
  lemma MissingBetaEnergies(energies: seq<real>, k: int)
    requires 0 <= k < |energies|
    ensures HeaderEnergies(energies, k, |energies|, true) == Err(IndexError)
  {
  }
}
