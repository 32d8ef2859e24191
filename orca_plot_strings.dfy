/** The `%plots` block of orca_generate_plot_strings.py: one line per cube
    file ORCA is asked to write, for the densities, the UHF natural
    orbitals and the canonical orbitals. The cclib path is not part of
    this model, so the orbital lists are always the command-line text. */
module OrcaPlotStrings {
  import opened Py
  import opened Strs
  import opened VmdTemplates

  // ---------------------------------------------------------------------
  // The line builders

  /** `mo_string(prefix, mo_num, op_num)`: spin `a` for operator 0, `b`
      for operator 1, and `None` for any other operator. */
  function MoString(prefix: string, moNum: string, op: int): (r: Option<string>)
    ensures r.Some? <==> op == 0 || op == 1
  {
    if op == 0 then Some("mo(\"" + prefix + "mo." + moNum + "a.cube\", " + moNum + ", 0);")
    else if op == 1 then Some("mo(\"" + prefix + "mo." + moNum + "b.cube\", " + moNum + ", 1);")
    else None
  }

  /** `uno_string(prefix, uno_num)`. */
  function UnoString(prefix: string, unoNum: string): string
  {
    "uno(\"" + prefix + "uno." + unoNum + ".cube\", " + unoNum + ");"
  }

  /** `eldens_string(prefix)`. */
  function EldensString(prefix: string): string
  {
    "eldens(\"" + prefix + "density.el.cube\");"
  }

  /** `spindens_string(prefix)`. */
  function SpindensString(prefix: string): string
  {
    "spindens(\"" + prefix + "density.spin.cube\");"
  }

  /** The alpha and the beta line of an orbital name different cube
      files: they agree up to the spin letter, `a` against `b`. */
  lemma SpinFilesDiffer(prefix: string, moNum: string)
    ensures var k := |"mo(\"" + prefix + "mo." + moNum|;
      k < |MoString(prefix, moNum, 0).value| && k < |MoString(prefix, moNum, 1).value| &&
      MoString(prefix, moNum, 0).value[..k] == MoString(prefix, moNum, 1).value[..k] &&
      MoString(prefix, moNum, 0).value[k] == 'a' && MoString(prefix, moNum, 1).value[k] == 'b'
    ensures MoString(prefix, moNum, 0) != MoString(prefix, moNum, 1)
  {
    var stem := "mo(\"" + prefix + "mo." + moNum;
    var tailA := "a.cube\", " + moNum + ", 0);";
    var tailB := "b.cube\", " + moNum + ", 1);";
    assert MoString(prefix, moNum, 0).value == stem + tailA;
    assert MoString(prefix, moNum, 1).value == stem + tailB;
    assert (stem + tailA)[..|stem|] == stem;
    assert (stem + tailB)[..|stem|] == stem;
    assert (stem + tailA)[|stem|] == tailA[0];
    assert (stem + tailB)[|stem|] == tailB[0];
  }

  // ---------------------------------------------------------------------
  // The options

  /** The options `generate_block` reads, as docopt gives them: text, or
      `None` when the option is absent. */
  datatype PlotArgs = PlotArgs(
    prefix: Option<string>, dim: string,
    eldens: bool, spindens: bool, beta: bool,
    maxOrb: Option<string>, canon: Option<string>, uno: Option<string>)

  /** Python truthiness of an optional text: present and non-empty. */
  predicate Truthy(o: Option<string>)
  {
    o.Some? && o.value != ""
  }

  /** The file-name prefix: empty without `--prefix`, else the prefix and
      a dot. */
  function Prefix(p: Option<string>): (r: string)
    ensures p.None? ==> r == ""
    ensures p.Some? ==> r == p.value + "." && |r| == |p.value| + 1 && r[|r| - 1] == '.'
  {
    if p.None? then "" else p.value + "."
  }

  /** `list(range(lo, hi))`. */
  function Range(lo: int, hi: int): (r: seq<int>)
    ensures |r| == if hi <= lo then 0 else hi - lo
    ensures forall k :: 0 <= k < |r| ==> r[k] == lo + k
    decreases hi - lo
  {
    if hi <= lo then [] else [lo] + Range(lo + 1, hi)
  }

  /** `arg_to_list(text)`: `eval` of a comma-separated list of integer
      literals, a trailing comma allowed; a single integer becomes a list
      of one. Text that is not such a list fails to evaluate, and so does
      a nonzero literal written with a leading zero (`07`), which Python 3
      no longer reads as octal. */
  function ArgToList(text: string): Result<seq<int>>
  {
    EvalItems(ListItems(text))
  }

  /** The comma-separated pieces of `text`, without the empty piece a
      trailing comma leaves. */
  function ListItems(text: string): seq<string>
  {
    var pieces := Split(text, ',');
    if |pieces| > 1 && Strip(pieces[|pieces| - 1]) == "" then pieces[..|pieces| - 1] else pieces
  }

  /** The value of each piece, or SyntaxError when one is not an integer
      literal. */
  function EvalItems(items: seq<string>): Result<seq<int>>
  {
    if exists k :: 0 <= k < |items| && LeadingZeroLiteral(items[k]) then Err(SyntaxError)
    else
      match ParseAll(items)
      case Err(_) => Err(SyntaxError)
      case Ok(ns) => Ok(ns)
  }

  /** A signed decimal literal whose digits start with `0` but are not all
      zeros: `int()` accepts it, Python 3's `eval` does not. */
  predicate LeadingZeroLiteral(s: string)
  {
    var t := Strip(s);
    var d := if |t| > 0 && (t[0] == '-' || t[0] == '+') then t[1..] else t;
    |d| > 1 && d[0] == '0' && exists j :: 0 <= j < |d| && d[j] != '0'
  }

  /** `str(i)` never has a leading zero. */
  lemma NoLeadingZero(i: int)
    ensures !LeadingZeroLiteral(IntToString(i))
  {
    StripIntToString(i);
    var t := IntToString(i);
    if i < 0 {
      assert t[1..] == NatToString(-i);
    }
  }

  lemma StripIntToString(i: int)
    ensures Strip(IntToString(i)) == IntToString(i)
  {
    var t := IntToString(i);
    var n := NatToString(if i < 0 then -i else i);
    assert IsDigit(n[|n| - 1]);
    assert t[|t| - 1] == n[|n| - 1];
    assert IsDigit(t[0]) || t[0] == '-';
    StripNoop(t);
  }

  /** The list of numbers written as `str(n)` joined by commas evaluates
      back to that list. */
  lemma ArgToListRoundTrip(l: seq<int>)
    requires |l| > 0
    ensures ArgToList(Join(",", IntStrings(l))) == Ok(l)
  {
    var xs := IntStrings(l);
    forall k | 0 <= k < |xs| ensures ',' !in xs[k] && !LeadingZeroLiteral(xs[k]) {
      IntToStringHasNoSeparator(l[k], ',');
      NoLeadingZero(l[k]);
    }
    StripIntToString(l[|l| - 1]);
    ListItemsOfJoin(xs);
    ParseAllIntStrings(l);
  }

  /** Pieces without commas, the last not blank, are the items of their
      comma-join. */
  lemma ListItemsOfJoin(xs: seq<string>)
    requires |xs| > 0 && Strip(xs[|xs| - 1]) != ""
    requires forall k :: 0 <= k < |xs| ==> ',' !in xs[k]
    ensures ListItems(Join(",", xs)) == xs
  {
    SplitJoin(xs, ',');
  }

  /** Numbers given as `str(n)` joined by commas: two of them are the
      inclusive range between them, any other count is the list itself. */
  lemma OrbitalNumbersOfList(l: seq<int>)
    requires |l| > 0
    ensures |l| == 2 ==> OrbitalNumbers(Join(",", IntStrings(l))) == Ok(Range(l[0], l[1] + 1))
    ensures |l| != 2 ==> OrbitalNumbers(Join(",", IntStrings(l))) == Ok(l)
  {
    var xs := IntStrings(l);
    forall k | 0 <= k < |xs| ensures ',' !in xs[k] {
      IntToStringHasNoSeparator(l[k], ',');
    }
    SplitJoin(xs, ',');
    if |l| == 2 {
      PairIsRange(xs, l[0], l[1]);
    } else {
      ArgToListRoundTrip(l);
    }
  }

  lemma PairIsRange(xs: seq<string>, lo: int, hi: int)
    requires xs == [IntToString(lo), IntToString(hi)]
    requires Split(Join(",", xs), ',') == xs
    ensures OrbitalNumbers(Join(",", xs)) == Ok(Range(lo, hi + 1))
  {
    ParseIntOfIntToString(lo);
    ParseIntOfIntToString(hi);
  }

  /** A literal with a leading zero, such as `--canon=07`, is rejected
      even though `int()` would read it. */
  lemma LeadingZeroRejected()
    ensures ParseInt("07") == Ok(7)
    ensures ArgToList("07") == Err(SyntaxError)
  {
    IntReadsLeadingZero();
    EvalRejectsLeadingZero();
  }

  lemma IntReadsLeadingZero()
    ensures ParseInt("07") == Ok(7)
  {
    StripNoop("07");
    assert AllDigits("07");
    assert "07"[..1] == "0" && "0"[..0] == "";
    assert DigitsValue("0") == 0;
  }

  lemma EvalRejectsLeadingZero()
    ensures ArgToList("07") == Err(SyntaxError)
  {
    assert Join(",", ["07"]) == "07";
    SplitJoin(["07"], ',');
    StripNoop("07");
    assert ListItems("07") == ["07"];
    assert "07"[1] != '0';
    assert LeadingZeroLiteral("07");
  }

  /** The orbital numbers of a `--canon` or `--uno` text: two
      comma-separated values are an inclusive range, anything else is
      evaluated as a list. */
  function OrbitalNumbers(text: string): Result<seq<int>>
  {
    var pieces := Split(text, ',');
    if |pieces| == 2 then
      match ParseInt(pieces[0])
      case Err(e) => Err(e)
      case Ok(lo) =>
        match ParseInt(pieces[1])
        case Err(e) => Err(e)
        case Ok(hi) => Ok(Range(lo, hi + 1))
    else ArgToList(text)
  }

  /** `pad_left_zeros_l(nums)` as a value. */
  function Padded(nums: seq<int>): (r: seq<string>)
    ensures |r| == |nums|
  {
    seq(|nums|, i requires 0 <= i < |nums| => PadLeftZeros(nums[i], MaxLen(nums)))
  }

  /** One line per natural orbital, in list order. */
  function UnoLines(prefix: string, nums: seq<string>): (r: seq<string>)
    ensures |r| == |nums|
  {
    seq(|nums|, i requires 0 <= i < |nums| => " " + UnoString(prefix, nums[i]))
  }

  /** The canonical-orbital lines: the alpha line of each orbital, and
      with `beta` its beta line right after it. */
  function CanonLines(prefix: string, nums: seq<string>, beta: bool): (r: seq<string>)
    decreases |nums|
  {
    if |nums| == 0 then []
    else
      var last := nums[|nums| - 1];
      CanonLines(prefix, nums[..|nums| - 1], beta)
      + [" " + MoString(prefix, last, 0).value]
      + (if beta then [" " + MoString(prefix, last, 1).value] else [])
  }

  const Header := ["%plots", " format gaussian_cube"]

  /** The fixed head of the block: `%plots`, the format and the three
      grid dimensions. */
  function HeadLines(dim: string): seq<string>
  {
    Header + [" dim1 " + dim, " dim2 " + dim, " dim3 " + dim]
  }

  /** The density lines, electron density first. */
  function DensityLines(prefix: string, eldens: bool, spindens: bool): seq<string>
  {
    (if eldens then [" " + EldensString(prefix)] else [])
    + (if spindens then [" " + SpindensString(prefix)] else [])
  }

  /** The orbital numbers kept by a `--max` limit, all without one. */
  function Keep(nums: seq<int>, limit: Option<int>): seq<int>
  {
    if limit.Some? then AtMost(nums, limit.value) else nums
  }

  /** The natural-orbital lines of `--uno`, none when it is absent or
      empty. */
  function UnoPart(prefix: string, o: Option<string>, limit: Option<int>): Result<seq<string>>
  {
    if !Truthy(o) then Ok([])
    else
      match OrbitalNumbers(o.value)
      case Err(e) => Err(e)
      case Ok(ns) => Ok(UnoLines(prefix, Padded(Keep(ns, limit))))
  }

  /** The canonical-orbital lines of `--canon`, none when it is absent or
      empty. */
  function CanonPart(prefix: string, o: Option<string>, beta: bool, limit: Option<int>): Result<seq<string>>
  {
    if !Truthy(o) then Ok([])
    else
      match OrbitalNumbers(o.value)
      case Err(e) => Err(e)
      case Ok(ns) => Ok(CanonLines(prefix, Padded(Keep(ns, limit)), beta))
  }

  /** The block's lines once the `--max` step is past: the head, the
      densities, the natural orbitals, the canonical ones, ` end`. */
  function Assemble(args: PlotArgs, limit: Option<int>): Result<seq<string>>
  {
    var prefix := Prefix(args.prefix);
    match UnoPart(prefix, args.uno, limit)
    case Err(e) => Err(e)
    case Ok(unos) =>
      match CanonPart(prefix, args.canon, args.beta, limit)
      case Err(e) => Err(e)
      case Ok(canons) =>
        Ok(HeadLines(args.dim) + DensityLines(prefix, args.eldens, args.spindens) + unos + canons + [" end"])
  }

  /** The `--max` step as written: `int(--max)`, then a comprehension
      that compares each item of the option with the maximum. The items
      of a command-line option are characters, and comparing a `str` with
      an `int` raises TypeError. */
  function MaxStep(args: PlotArgs): Result<()>
  {
    if !Truthy(args.maxOrb) then Ok(())
    else
      match ParseInt(args.maxOrb.value)
      case Err(e) => Err(e)
      case Ok(_) => if Truthy(args.canon) || Truthy(args.uno) then Err(TypeError) else Ok(())
  }

  /** The lines `generate_block` appends, in order. */
  function PlotParts(args: PlotArgs): Result<seq<string>>
  {
    match MaxStep(args)
    case Err(e) => Err(e)
    case Ok(_) => Assemble(args, None)
  }

  /** `generate_block(args)` as a value. */
  function BlockSpec(args: PlotArgs): Result<string>
  {
    match PlotParts(args)
    case Err(e) => Err(e)
    case Ok(parts) => Ok(Join("\n", parts))
  }

  // ---------------------------------------------------------------------
  // generate_block

  /** The loop over the natural orbitals. */
  method AppendUnoLines(parts: seq<string>, prefix: string, nums: seq<string>) returns (r: seq<string>)
    ensures r == parts + UnoLines(prefix, nums)
  {
    r := parts;
    for i := 0 to |nums|
      invariant r == parts + UnoLines(prefix, nums[..i])
    {
      assert UnoLines(prefix, nums[..i + 1]) == UnoLines(prefix, nums[..i]) + [" " + UnoString(prefix, nums[i])];
      r := r + [" " + UnoString(prefix, nums[i])];
    }
    assert nums[..|nums|] == nums;
  }

  /** The loop over the canonical orbitals. */
  method AppendCanonLines(parts: seq<string>, prefix: string, nums: seq<string>, beta: bool) returns (r: seq<string>)
    ensures r == parts + CanonLines(prefix, nums, beta)
  {
    r := parts;
    for i := 0 to |nums|
      invariant r == parts + CanonLines(prefix, nums[..i], beta)
    {
      assert nums[..i + 1][..i] == nums[..i];
      r := r + [" " + MoString(prefix, nums[i], 0).value];
      if beta {
        r := r + [" " + MoString(prefix, nums[i], 1).value];
      }
    }
    assert nums[..|nums|] == nums;
  }

  /** The orbital numbers of an option, padded to a common width. */
  method PaddedNumbers(text: string) returns (r: Result<seq<string>>)
    ensures OrbitalNumbers(text).Err? ==> r == Err(OrbitalNumbers(text).exc)
    ensures OrbitalNumbers(text).Ok? ==> r == Ok(Padded(OrbitalNumbers(text).value))
  {
    var nums := OrbitalNumbers(text);
    if nums.Err? {
      return Err(nums.exc);
    }
    var padded := PadLeftZerosList(nums.value);
    assert padded == Padded(nums.value);
    r := Ok(padded);
  }

  /** The first appends of `generate_block`: the head and the densities. */
  method AppendHead(dim: string, prefix: string, eldens: bool, spindens: bool) returns (parts: seq<string>)
    ensures parts == HeadLines(dim) + DensityLines(prefix, eldens, spindens)
  {
    parts := ["%plots"];
    parts := parts + [" format gaussian_cube"];
    parts := parts + [" dim1 " + dim];
    parts := parts + [" dim2 " + dim];
    parts := parts + [" dim3 " + dim];
    if eldens {
      parts := parts + [" " + EldensString(prefix)];
    }
    if spindens {
      parts := parts + [" " + SpindensString(prefix)];
    }
  }

  /** The `--uno` branch: the lines of the natural orbitals appended. */
  method AppendUno(parts: seq<string>, prefix: string, o: Option<string>) returns (r: Result<seq<string>>)
    ensures UnoPart(prefix, o, None).Err? ==> r == Err(UnoPart(prefix, o, None).exc)
    ensures UnoPart(prefix, o, None).Ok? ==> r == Ok(parts + UnoPart(prefix, o, None).value)
  {
    if !Truthy(o) {
      assert parts + [] == parts;
      return Ok(parts);
    }
    var nums := PaddedNumbers(o.value);
    if nums.Err? {
      return Err(nums.exc);
    }
    var appended := AppendUnoLines(parts, prefix, nums.value);
    r := Ok(appended);
  }

  /** The `--canon` branch: the lines of the canonical orbitals appended. */
  method AppendCanon(parts: seq<string>, prefix: string, o: Option<string>, beta: bool) returns (r: Result<seq<string>>)
    ensures CanonPart(prefix, o, beta, None).Err? ==> r == Err(CanonPart(prefix, o, beta, None).exc)
    ensures CanonPart(prefix, o, beta, None).Ok? ==> r == Ok(parts + CanonPart(prefix, o, beta, None).value)
  {
    if !Truthy(o) {
      assert parts + [] == parts;
      return Ok(parts);
    }
    var nums := PaddedNumbers(o.value);
    if nums.Err? {
      return Err(nums.exc);
    }
    var appended := AppendCanonLines(parts, prefix, nums.value, beta);
    r := Ok(appended);
  }

  /** `generate_block(args)`: the head and the densities, the `--max`
      step, the natural orbitals, then the canonical ones, then ` end`,
      joined with newlines. */
  method GenerateBlock(args: PlotArgs) returns (r: Result<string>)
    ensures r == BlockSpec(args)
  {
    var prefix := Prefix(args.prefix);
    var parts := AppendHead(args.dim, prefix, args.eldens, args.spindens);
    if Truthy(args.maxOrb) {
      var maxorb := ParseInt(args.maxOrb.value);
      if maxorb.Err? {
        return Err(maxorb.exc);
      }
      if Truthy(args.canon) || Truthy(args.uno) {
        return Err(TypeError);
      }
    }
    var withUnos := AppendUno(parts, prefix, args.uno);
    if withUnos.Err? {
      return Err(withUnos.exc);
    }
    var withCanons := AppendCanon(withUnos.value, prefix, args.canon, args.beta);
    if withCanons.Err? {
      return Err(withCanons.exc);
    }
    parts := withCanons.value + [" end"];
    r := Ok(Join("\n", parts));
  }

  // ---------------------------------------------------------------------
  // What the block holds

  /** The block starts with `%plots`, the format line and the three
      dimensions, then the density lines, and ends with ` end`. */
  lemma PlotPartsShape(args: PlotArgs)
    requires PlotParts(args).Ok?
    ensures HeadLines(args.dim) + DensityLines(Prefix(args.prefix), args.eldens, args.spindens) <= PlotParts(args).value
    ensures PlotParts(args).value[|PlotParts(args).value| - 1] == " end"
  {
    assert PlotParts(args) == Assemble(args, None);
    var unos, canons := AssembleSplit(args, None);
    var front := HeadLines(args.dim) + DensityLines(Prefix(args.prefix), args.eldens, args.spindens);
    ConcatPrefix(front, unos, canons, [" end"]);
  }

  /** The parts of an assembled block. */
  lemma AssembleSplit(args: PlotArgs, limit: Option<int>) returns (unos: seq<string>, canons: seq<string>)
    requires Assemble(args, limit).Ok?
    ensures Assemble(args, limit).value ==
      HeadLines(args.dim) + DensityLines(Prefix(args.prefix), args.eldens, args.spindens) + unos + canons + [" end"]
  {
    var prefix := Prefix(args.prefix);
    unos := UnoPart(prefix, args.uno, limit).value;
    canons := CanonPart(prefix, args.canon, args.beta, limit).value;
  }

  lemma ConcatPrefix(a: seq<string>, b: seq<string>, c: seq<string>, d: seq<string>)
    requires |d| > 0
    ensures a <= a + b + c + d
    ensures (a + b + c + d)[|a + b + c + d| - 1] == d[|d| - 1]
  {
    assert a + b + c + d == a + (b + c + d);
  }

  /** With `beta`, each orbital's alpha line is followed at once by its
      beta line; without it there is one alpha line per orbital. */
  lemma {:induction false} CanonLinesAt(prefix: string, nums: seq<string>, beta: bool, k: nat)
    requires k < |nums|
    ensures |CanonLines(prefix, nums, beta)| == (if beta then 2 * |nums| else |nums|)
    ensures beta ==>
      CanonLines(prefix, nums, beta)[2 * k] == " " + MoString(prefix, nums[k], 0).value &&
      CanonLines(prefix, nums, beta)[2 * k + 1] == " " + MoString(prefix, nums[k], 1).value
    ensures !beta ==> CanonLines(prefix, nums, beta)[k] == " " + MoString(prefix, nums[k], 0).value
    decreases |nums|
  {
    var front := nums[..|nums| - 1];
    if k < |nums| - 1 {
      CanonLinesAt(prefix, front, beta, k);
    } else if |front| > 0 {
      CanonLinesAt(prefix, front, beta, 0);
    }
  }

  /** Two comma-separated numbers expand to the inclusive range between
      them. */
  lemma TwoValueRange(lo: int, hi: int)
    ensures OrbitalNumbers(IntToString(lo) + "," + IntToString(hi)) == Ok(Range(lo, hi + 1))
  {
    var a, b := IntToString(lo), IntToString(hi);
    IntToStringHasNoSeparator(lo, ',');
    IntToStringHasNoSeparator(hi, ',');
    assert Join([','], [a, b]) == a + "," + b;
    SplitJoin([a, b], ',');
    ParseIntOfIntToString(lo);
    ParseIntOfIntToString(hi);
  }

  /** The range `lo..hi` has `hi - lo + 1` orbitals, the `k`-th being
      `lo + k` padded to the width of the widest. */
  lemma RangePadded(lo: int, hi: int)
    ensures var p := Padded(Range(lo, hi + 1));
      |p| == (if hi < lo then 0 else hi - lo + 1) &&
      forall k :: 0 <= k < |p| ==>
        p[k] == PadLeftZeros(lo + k, MaxLen(Range(lo, hi + 1))) && |p[k]| == MaxLen(Range(lo, hi + 1))
  {
    var nums := Range(lo, hi + 1);
    var p := Padded(nums);
    forall k | 0 <= k < |p|
      ensures p[k] == PadLeftZeros(lo + k, MaxLen(nums)) && |p[k]| == MaxLen(nums)
    {
      PaddedToCommonWidth(nums, k);
    }
  }

  /** As written, `--max` together with a `--canon` or `--uno` list from
      the command line never filters: it raises TypeError. */
  lemma MaxWithListFails(args: PlotArgs)
    requires Truthy(args.maxOrb) && ParseInt(args.maxOrb.value).Ok?
    requires Truthy(args.canon) || Truthy(args.uno)
    ensures PlotParts(args) == Err(TypeError)
    ensures BlockSpec(args) == Err(TypeError)
  {
  }

  // ---------------------------------------------------------------------
  // The `--max` step as intended

  /** `[i for i in nums if i <= maxorb]`. */
  function AtMost(nums: seq<int>, maxorb: int): seq<int>
  {
    if |nums| == 0 then []
    else (if nums[0] <= maxorb then [nums[0]] else []) + AtMost(nums[1..], maxorb)
  }

  /** The filter keeps exactly the orbitals at or below the maximum, in
      their order: filtering a concatenation filters each part. */
  lemma {:induction false} AtMostMeaning(nums: seq<int>, maxorb: int)
    ensures forall x :: x in AtMost(nums, maxorb) <==> x in nums && x <= maxorb
    ensures |AtMost(nums, maxorb)| <= |nums|
    ensures (forall k :: 0 <= k < |nums| ==> nums[k] <= maxorb) ==> AtMost(nums, maxorb) == nums
    decreases |nums|
  {
    if |nums| > 0 {
      AtMostMeaning(nums[1..], maxorb);
      assert nums == [nums[0]] + nums[1..];
    }
  }

  lemma {:induction false} AtMostConcat(a: seq<int>, b: seq<int>, maxorb: int)
    ensures AtMost(a + b, maxorb) == AtMost(a, maxorb) + AtMost(b, maxorb)
    decreases |a|
  {
    if |a| == 0 {
      assert a + b == b;
    } else {
      assert (a + b)[0] == a[0];
      assert (a + b)[1..] == a[1..] + b;
      var h := if a[0] <= maxorb then [a[0]] else [];
      assert AtMost(a + b, maxorb) == h + AtMost(a[1..] + b, maxorb);
      AtMostConcat(a[1..], b, maxorb);
      assert AtMost(a, maxorb) == h + AtMost(a[1..], maxorb);
    }
  }

  /** The `--max` limit read as intended: `int(--max)`, or no limit. */
  function Limit(args: PlotArgs): Result<Option<int>>
  {
    if !Truthy(args.maxOrb) then Ok(None)
    else
      match ParseInt(args.maxOrb.value)
      case Err(e) => Err(e)
      case Ok(m) => Ok(Some(m))
  }

  /** `generate_block` with `--max` applied to the orbital numbers before
      they are padded. */
  function PlotPartsFixed(args: PlotArgs): Result<seq<string>>
  {
    match Limit(args)
    case Err(e) => Err(e)
    case Ok(m) => Assemble(args, m)
  }

  /** With the step fixed, a `--max` keeps exactly the natural orbitals at
      or below it, in order; without `--max` the block is the one written
      today. */
  lemma PlotPartsFixedMeaning(args: PlotArgs)
    ensures !Truthy(args.maxOrb) ==> PlotPartsFixed(args) == PlotParts(args)
    ensures (Truthy(args.maxOrb) && ParseInt(args.maxOrb.value).Ok? && Truthy(args.uno) &&
      OrbitalNumbers(args.uno.value).Ok?) ==>
      var m := ParseInt(args.maxOrb.value).value;
      var kept := AtMost(OrbitalNumbers(args.uno.value).value, m);
      UnoPart(Prefix(args.prefix), args.uno, Limit(args).value) == Ok(UnoLines(Prefix(args.prefix), Padded(kept))) &&
      (forall x :: x in kept <==> x in OrbitalNumbers(args.uno.value).value && x <= m)
  {
    if Truthy(args.maxOrb) && ParseInt(args.maxOrb.value).Ok? && Truthy(args.uno) &&
      OrbitalNumbers(args.uno.value).Ok? {
      AtMostMeaning(OrbitalNumbers(args.uno.value).value, ParseInt(args.maxOrb.value).value);
    }
  }

  /** The fixed block keeps the order of the block as written: head,
      densities, natural orbitals, canonical orbitals, ` end`. */
  lemma PlotPartsFixedShape(args: PlotArgs)
    requires PlotPartsFixed(args).Ok?
    ensures PlotPartsFixed(args).value == Assemble(args, Limit(args).value).value
    ensures Limit(args).value.Some? ==> Truthy(args.maxOrb)
  {
  }
}
