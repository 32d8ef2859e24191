/** RI flags, auxiliary basis and point-charge line of ORCA EPR inputs
    (chemistry/orca_make_epr_inputs.py). */
module OrcaMakeEprInputs {
  import opened Py
  import opened Strs

  datatype FunctionalType = Pure | Hybrid

  /** `choices_functionals`: each density functional with its type. */
  const Functionals: seq<(string, FunctionalType)> := [
    ("hf", Hybrid), ("hfs", Pure), ("vwn3", Pure), ("vwn5", Pure), ("pwlda", Pure),
    ("bp86", Pure), ("blyp", Pure), ("olyp", Pure), ("xlyp", Pure), ("pw91", Pure),
    ("mpwpw", Pure), ("mpwlyp", Pure), ("pbe", Pure), ("rpbe", Pure), ("revpbe", Pure),
    ("pwp", Pure), ("b1lyp", Hybrid), ("b3lyp", Hybrid), ("o3lyp", Hybrid), ("x3lyp", Hybrid),
    ("b1p", Hybrid), ("b3p", Hybrid), ("b3pw", Hybrid), ("pw1pw", Hybrid), ("mpw1pw", Hybrid),
    ("mpw1lyp", Hybrid), ("pbe0", Hybrid), ("pw6b95", Hybrid), ("bhandhlyp", Hybrid), ("tpss", Pure),
    ("tpssh", Hybrid), ("tpss0", Hybrid), ("m06l", Pure), ("m06", Hybrid), ("m062x", Hybrid)
  ]

  /** `choices_ri[t]`: on/off, handling of exact exchange, aux-basis suffix. */
  function RiChoices(t: FunctionalType): seq<(string, string, string)>
  {
    match t
    case Pure => [("nori", "", ""), ("ri", "", "/j")]
    case Hybrid => [("nori", "", ""), ("ri", "rijonx", "/j"), ("ri", "rijcosx", "/j"), ("ri", "rijk", "/jk")]
  }

  // ---------------------------------------------------------------------
  // determine_ri_flags

  /** The first RI choice, from position `j`, whose exchange handling is
      `exx`. */
  function FirstRi(choices: seq<(string, string, string)>, exx: string, j: nat): Option<(string, string, string)>
    decreases |choices| - j
  {
    if j >= |choices| then None
    else if choices[j].1 == exx then Some(choices[j])
    else FirstRi(choices, exx, j + 1)
  }

  /** The outer loop of `determine_ri_flags` from entry `i` of `table`: a
      pure functional returns at once; a hybrid one returns when an RI
      choice matches `exx` and otherwise the search goes on; running off
      the end is the `for ... else` that returns `nori`. */
  function RiFlagsFrom(table: seq<(string, FunctionalType)>, i: nat, noRi: bool, exx: string, functional: string): string
    decreases |table| - i
  {
    if i >= |table| then "nori"
    else if table[i].0 != functional then RiFlagsFrom(table, i + 1, noRi, exx, functional)
    else if table[i].1 == Pure then (if noRi then "nori" else "ri")
    else
      match FirstRi(RiChoices(table[i].1), exx, 0)
      case Some(c) => Join(" ", [c.0, c.1])
      case None => RiFlagsFrom(table, i + 1, noRi, exx, functional)
  }

  /** `determine_ri_flags(args, inpfile_params)`. */
  function RiFlags(noRi: bool, exx: string, functional: string): string
  {
    RiFlagsFrom(Functionals, 0, noRi, exx, functional)
  }

  /** The inner loop: the first RI choice handling exchange as `exx`. */
  method FindRiChoice(choices: seq<(string, string, string)>, exx: string) returns (r: Option<(string, string, string)>)
    ensures r == FirstRi(choices, exx, 0)
  {
    var j := 0;
    while j < |choices|
      invariant 0 <= j <= |choices|
      invariant FirstRi(choices, exx, 0) == FirstRi(choices, exx, j)
    {
      if choices[j].1 == exx {
        return Some(choices[j]);
      }
      j := j + 1;
    }
    return None;
  }

  method DetermineRiFlags(noRi: bool, exx: string, functional: string) returns (r: string)
    ensures r == RiFlags(noRi, exx, functional)
  {
    var i := 0;
    while i < |Functionals|
      invariant 0 <= i <= |Functionals|
      invariant RiFlags(noRi, exx, functional) == RiFlagsFrom(Functionals, i, noRi, exx, functional)
    {
      var entry := Functionals[i];
      if entry.0 == functional {
        if entry.1 == Pure {
          if noRi {
            return "nori";
          } else {
            return "ri";
          }
        } else {
          var c := FindRiChoice(RiChoices(entry.1), exx);
          if c.Some? {
            return Join(" ", [c.value.0, c.value.1]);
          }
        }
      }
      i := i + 1;
    }
    return "nori";
  }

  /** The first position from `i` of an entry named `functional`, or
      `|table|`. */
  function FirstNamed(table: seq<(string, FunctionalType)>, functional: string, i: nat): (m: nat)
    ensures i <= |table| ==> i <= m <= |table|
    ensures m < |table| ==> table[m].0 == functional
    ensures forall k :: i <= k < |table| && k < m ==> table[k].0 != functional
    decreases |table| - i
  {
    if i >= |table| then |table|
    else if table[i].0 == functional then i
    else FirstNamed(table, functional, i + 1)
  }

  /** Entries with other names do not change the outcome. */
  lemma {:induction false} RiFlagsSkip(table: seq<(string, FunctionalType)>, i: nat, noRi: bool, exx: string, functional: string)
    requires i <= |table|
    ensures RiFlagsFrom(table, i, noRi, exx, functional) ==
      RiFlagsFrom(table, FirstNamed(table, functional, i), noRi, exx, functional)
    decreases |table| - i
  {
    if i < |table| && table[i].0 != functional {
      RiFlagsSkip(table, i + 1, noRi, exx, functional);
    }
  }

  /** The flags are decided by the first entry named `functional`: none
      gives `nori`; a pure one gives `nori` under `--no-ri` and `ri`
      otherwise; a hybrid one gives `ri` and the exchange handling when that
      is in the hybrid table. */
  lemma RiFlagsCases(noRi: bool, exx: string, functional: string)
    ensures FirstNamed(Functionals, functional, 0) == |Functionals| ==> RiFlags(noRi, exx, functional) == "nori"
    ensures var m := FirstNamed(Functionals, functional, 0);
      m < |Functionals| && Functionals[m].1 == Pure ==> RiFlags(noRi, exx, functional) == (if noRi then "nori" else "ri")
    ensures var m := FirstNamed(Functionals, functional, 0);
      m < |Functionals| && Functionals[m].1 == Hybrid && exx in {"rijonx", "rijcosx", "rijk"} ==>
        RiFlags(noRi, exx, functional) == "ri " + exx
  {
    RiFlagsSkip(Functionals, 0, noRi, exx, functional);
    HybridChoice(exx);
  }

  /** Each exchange handling the command line accepts has an `ri` entry in
      the hybrid table. */
  lemma HybridChoice(exx: string)
    ensures exx in {"rijonx", "rijcosx", "rijk"} ==>
      FirstRi(RiChoices(Hybrid), exx, 0).Some? && Join(" ", [FirstRi(RiChoices(Hybrid), exx, 0).value.0, exx]) == "ri " + exx
    ensures exx in {"rijonx", "rijcosx", "rijk"} ==> FirstRi(RiChoices(Hybrid), exx, 0).value.1 == exx
  {
    if exx in {"rijonx", "rijcosx", "rijk"} {
      assert Join(" ", ["ri", exx]) == "ri" + " " + Join(" ", [exx]);
    }
  }

  // ---------------------------------------------------------------------
  // select_aux_basis_family

  /** `families`: a substring of the basis name and the auxiliary family it
      selects. */
  const Families: seq<(string, string)> := [
    ("def2-sv", "def2-svp"), ("def2-tzvp", "def2-tzvpp"), ("def2-qzvp", "def2-qzvpp"),
    ("cc-pvdz", "cc-pvdz"), ("cc-pvtz", "cc-pvtz"), ("cc-pvqz", "cc-pvqz"),
    ("cc-pv5z", "cc-pv5z"), ("cc-pv6z", "cc-pv6z")
  ]

  /** The family of the first entry from `i` whose key occurs in `lowered`,
      or `def2-qzvpp` when none does. */
  function FamilyFrom(lowered: string, i: nat): (family: string)
    ensures |family| > 0
    decreases |Families| - i
  {
    if i >= |Families| then "def2-qzvpp"
    else if Contains(lowered, Families[i].0) then Families[i].1
    else FamilyFrom(lowered, i + 1)
  }

  function AuxBasisFamily(basis: string): string
  {
    FamilyFrom(Lower(basis), 0)
  }

  /** `select_aux_basis_family(basis_string)`. */
  method SelectAuxBasisFamily(basis: string) returns (family: string)
    ensures family == AuxBasisFamily(basis)
  {
    var lowered := Lower(basis);
    var i := 0;
    while i < |Families|
      invariant 0 <= i <= |Families|
      invariant AuxBasisFamily(basis) == FamilyFrom(lowered, i)
    {
      if Contains(lowered, Families[i].0) {
        return Families[i].1;
      }
      i := i + 1;
    }
    return "def2-qzvpp";
  }

  /** The family is that of the first key occurring in the lowercased
      basis name, and `def2-qzvpp` exactly when no key occurs. */
  lemma {:induction false} FamilyFromMeaning(lowered: string, i: nat)
    requires i <= |Families|
    ensures (forall j :: i <= j < |Families| ==> !Contains(lowered, Families[j].0)) ==> FamilyFrom(lowered, i) == "def2-qzvpp"
    ensures forall j :: (i <= j < |Families| && Contains(lowered, Families[j].0) &&
      (forall l :: i <= l < j ==> !Contains(lowered, Families[l].0))) ==> FamilyFrom(lowered, i) == Families[j].1
    decreases |Families| - i
  {
    if i < |Families| {
      FamilyFromMeaning(lowered, i + 1);
    }
  }

  /** Case does not matter: `Def2-TZVP` selects `def2-tzvpp`. */
  lemma FamilyExample()
    ensures AuxBasisFamily("Def2-TZVP") == "def2-tzvpp"
  {
    assert Lower("Def2-TZVP") == "def2-tzvp";
    assert !Contains("def2-tzvp", "def2-sv") by {
      forall i | 0 <= i <= 2 ensures !OccursAt("def2-tzvp", "def2-sv", i) {
        assert "def2-tzvp"[i + 5] != "def2-sv"[5];
      }
    }
    assert OccursAt("def2-tzvp", "def2-tzvp", 0);
  }

  // ---------------------------------------------------------------------
  // determine_aux_basis

  /** `ri_type_aux_basis_endings[ri_type]`; a missing key is KeyError. */
  function Ending(riType: string): Result<string>
  {
    if riType == "ri" || riType == "rijonx" || riType == "rijcosx" then Ok("/j")
    else if riType == "rijk" then Ok("/jk")
    else Err(KeyError)
  }

  /** `determine_aux_basis` as written: `--no-ri` wins; then an explicit
      `ri_type`; with neither, the loop over the functionals has no
      `break`, so its `else` always returns `''`. */
  function AuxBasis(noRi: bool, riType: string, functional: string, basis: string): Result<string>
  {
    if noRi then Ok("")
    else if riType != "" then
      if riType == "nori" then Ok("")
      else
        match Ending(riType)
        case Err(e) => Err(e)
        case Ok(e) => Ok(AuxBasisFamily(basis) + e)
    else Ok("")
  }

  method DetermineAuxBasis(noRi: bool, riType: string, functional: string, basis: string) returns (r: Result<string>)
    ensures r == AuxBasis(noRi, riType, functional, basis)
  {
    if noRi {
      return Ok("");
    } else if riType != "" {
      if riType == "nori" {
        return Ok("");
      }
      var ending := Ending(riType);
      if ending.Err? {
        return Err(KeyError);
      }
      var family := SelectAuxBasisFamily(basis);
      return Ok(family + ending.value);
    } else if functional != "" {
      var functionalType: Option<FunctionalType> := None;
      var i := 0;
      while i < |Functionals|
        invariant 0 <= i <= |Functionals|
      {
        if Functionals[i].0 == functional {
          functionalType := Some(Functionals[i].1);
        }
        i := i + 1;
      }
      return Ok("");
    } else {
      return Ok("");
    }
  }

  /** `--no-ri` always gives no auxiliary basis; `nori` does too; any other
      known ri_type gives the family and its ending, `/jk` only for
      `rijk`; an unknown one raises KeyError. */
  lemma AuxBasisCases(noRi: bool, riType: string, functional: string, basis: string)
    ensures noRi ==> AuxBasis(noRi, riType, functional, basis) == Ok("")
    ensures !noRi && riType == "nori" ==> AuxBasis(noRi, riType, functional, basis) == Ok("")
    ensures !noRi && riType in {"ri", "rijonx", "rijcosx"} ==> AuxBasis(noRi, riType, functional, basis) == Ok(AuxBasisFamily(basis) + "/j")
    ensures !noRi && riType == "rijk" ==> AuxBasis(noRi, riType, functional, basis) == Ok(AuxBasisFamily(basis) + "/jk")
    ensures !noRi && riType !in {"", "nori", "ri", "rijonx", "rijcosx", "rijk"} ==> AuxBasis(noRi, riType, functional, basis) == Err(KeyError)
  {
  }

  /** The documented defaults: with an empty ri_type the first entry named
      `functional` decides, `/j` for a pure one and `/jk` for a hybrid,
      and no match means no RI. */
  function AuxBasisFixed(noRi: bool, riType: string, functional: string, basis: string): (r: Result<string>)
    ensures noRi || riType != "" ==> r == AuxBasis(noRi, riType, functional, basis)
    ensures r.Err? ==> riType !in {"", "nori", "ri", "rijonx", "rijcosx", "rijk"}
    ensures !noRi && riType == "" && functional != "" && FirstNamed(Functionals, functional, 0) < |Functionals| ==>
      r.Ok? && r.value != ""
  {
    if noRi || riType != "" then AuxBasis(noRi, riType, functional, basis)
    else if functional == "" then Ok("")
    else
      var m := FirstNamed(Functionals, functional, 0);
      if m >= |Functionals| then Ok("")
      else if Functionals[m].1 == Pure then Ok(AuxBasisFamily(basis) + "/j")
      else Ok(AuxBasisFamily(basis) + "/jk")
  }

  /** The ri_type the main routine derives from the flags: their last
      word. */
  function RiTypeOfFlags(flags: string): string
  {
    var words := SplitWs(flags);
    if |words| == 0 then "" else words[|words| - 1]
  }

  predicate Word(w: string)
  {
    |w| > 0 && forall i :: 0 <= i < |w| ==> !IsSpace(w[i])
  }

  /** The last word of a single word is the word; of two words joined by a
      space, the second. */
  lemma RiTypeOfWords(a: string, b: string)
    requires Word(a) && Word(b)
    ensures RiTypeOfFlags(a) == a
    ensures RiTypeOfFlags(a + " " + b) == b
  {
    SplitWsWordThen(a, "");
    assert a + "" == a;
    SplitWsWordThen(b, "");
    assert b + "" == b;
    SplitWsWordThen(a, " " + b);
    assert a + " " + b == a + (" " + b);
    assert (" " + b)[1..] == b;
  }

  /** A word followed by the end or a space is the first piece of the
      split. */
  lemma {:induction false} SplitWsWordThen(w: string, rest: string)
    requires |w| > 0 && forall i :: 0 <= i < |w| ==> !IsSpace(w[i])
    requires rest == [] || IsSpace(rest[0])
    ensures SplitWs(w + rest) == [w] + SplitWs(rest)
    decreases |w|
  {
    if |w| == 1 {
      assert (w + rest)[1..] == rest;
      assert w == [w[0]];
    } else {
      SplitWsWordThen(w[1..], rest);
      assert (w + rest)[1..] == w[1..] + rest;
      assert w == [w[0]] + w[1..];
    }
  }

  /** The ri_type derived from the default flags (`rijk` for exact
      exchange): `nori` for an unknown functional, `ri` for a pure one and
      `rijk` for a hybrid one. */
  lemma DefaultRiType(functional: string)
    ensures var m := FirstNamed(Functionals, functional, 0);
      RiTypeOfFlags(RiFlags(false, "rijk", functional)) ==
        if m == |Functionals| then "nori" else if Functionals[m].1 == Pure then "ri" else "rijk"
  {
    var m := FirstNamed(Functionals, functional, 0);
    RiFlagsCases(false, "rijk", functional);
    if m == |Functionals| {
      RiTypeOfNori();
    } else if Functionals[m].1 == Pure {
      RiTypeOfRi();
    } else {
      RiTypeOfRiRijk();
    }
  }

  lemma RiTypeOfNori()
    ensures RiTypeOfFlags("nori") == "nori"
  {
    RiTypeOfWords("nori", "rijk");
  }

  lemma RiTypeOfRi()
    ensures RiTypeOfFlags("ri") == "ri"
  {
    RiTypeOfWords("ri", "rijk");
  }

  lemma RiTypeOfRiRijk()
    ensures RiTypeOfFlags("ri " + "rijk") == "rijk"
  {
    RiTypeOfWords("ri", "rijk");
    assert "ri " + "rijk" == "ri" + " " + "rijk";
  }

  /** Under the corrected defaults, leaving ri_type empty gives the same
      auxiliary basis as passing the ri_type of the default RI flags. */
  lemma AuxBasisFixedAgreesWithFlags(functional: string, basis: string)
    requires functional != ""
    ensures AuxBasisFixed(false, "", functional, basis) ==
      AuxBasis(false, RiTypeOfFlags(RiFlags(false, "rijk", functional)), functional, basis)
  {
    DefaultRiType(functional);
  }

  /** `FirstNamed` finds the position of the first entry with the name. */
  lemma {:induction false} FirstNamedAt(table: seq<(string, FunctionalType)>, functional: string, i: nat, m: nat)
    requires i <= m < |table| && table[m].0 == functional
    requires forall j :: i <= j < m ==> table[j].0 != functional
    ensures FirstNamed(table, functional, i) == m
    decreases m - i
  {
    if i < m {
      FirstNamedAt(table, functional, i + 1, m);
    }
  }

  /** As written, an empty ri_type never consults the functional: the pure
      `pbe` gets no auxiliary basis, where the documented default gives it
      the RI-J basis of its family. */
  lemma AuxBasisIgnoresFunctional(basis: string)
    ensures AuxBasis(false, "", "pbe", basis) == Ok("")
    ensures AuxBasisFixed(false, "", "pbe", basis) == Ok(AuxBasisFamily(basis) + "/j")
  {
    assert forall j :: 0 <= j < 12 ==> Functionals[j].0 != "pbe";
    FirstNamedAt(Functionals, "pbe", 0, 12);
  }

  // ---------------------------------------------------------------------
  // make_pointcharge_line

  /** `make_pointcharge_line(args)`: a point-charge file that is given and
      not empty yields `%pointcharges "<file>"`; otherwise the line is
      empty. */
  function PointchargeLine(ptchrgfile: Option<string>): (r: string)
    ensures ptchrgfile.Some? && ptchrgfile.value != "" ==>
      StartsWith(r, "%pointcharges \"") && |r| == |ptchrgfile.value| + 16 &&
      r[15..|r| - 1] == ptchrgfile.value && r[|r| - 1] == '"'
    ensures r == "" <==> ptchrgfile.None? || ptchrgfile.value == ""
  {
    if ptchrgfile.Some? && ptchrgfile.value != "" then "%pointcharges \"" + ptchrgfile.value + "\"" else ""
  }
}
