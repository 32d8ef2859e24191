/** The command block and the cluster checks of
    clusters/haswell/submit_qchem_batch.py: one `srun` line per Q-Chem
    input, handed out to the nodes round robin. */
module SubmitQChemBatch {
  import opened Py
  import opened Strs
  import opened PosixPath

  /** The `srun` command that runs the input `stub.in` on node `nodeidx`
      with `ppj` threads, writing `stub.out` in the submit directory. */
  function Command(stub: string, nodeidx: int, ppj: int): string
  {
    "srun --nodes=1 --ntasks=1 --cpus-per-task=" + IntToString(ppj)
    + " --exclusive -w ${nodelist[" + IntToString(nodeidx) + "]} $(which qchem) -nt "
    + IntToString(ppj) + " " + stub + ".in \"${SLURM_SUBMIT_DIR}\"/" + stub + ".out &"
  }

  /** The command for the `i`-th input: its stub is the file name without
      its extension, its node is `i % nnodes`. */
  function CommandFor(input: string, i: nat, nnodes: int, ppj: int): string
    requires nnodes != 0
  {
    Command(SplitExt(input).0, PyMod(i, nnodes).value, ppj)
  }

  /** The commands of the inputs, in input order. */
  function Commands(inputs: seq<string>, nnodes: int, ppj: int): (r: seq<string>)
    requires nnodes != 0
    ensures |r| == |inputs|
    decreases |inputs|
  {
    if |inputs| == 0 then []
    else Commands(inputs[..|inputs| - 1], nnodes, ppj) + [CommandFor(inputs[|inputs| - 1], |inputs| - 1, nnodes, ppj)]
  }

  /** `make_command_block_from_inputs` as a value: `i % nnodes` raises
      ZeroDivisionError for zero nodes as soon as there is an input. */
  function BlockSpec(inputs: seq<string>, nnodes: int, ppj: int): Result<string>
  {
    if nnodes == 0 then
      if |inputs| == 0 then Ok("") else Err(ZeroDivisionError)
    else Ok(Join("\n", Commands(inputs, nnodes, ppj)))
  }

  /** `make_command_block_from_inputs(inputfiles, nnodes, ppj)`: the loop
      over the inputs, then the join. */
  method MakeCommandBlock(inputs: seq<string>, nnodes: int, ppj: int) returns (r: Result<string>)
    ensures r == BlockSpec(inputs, nnodes, ppj)
  {
    var commands: seq<string> := [];
    var i := 0;
    while i < |inputs|
      invariant 0 <= i <= |inputs|
      invariant nnodes != 0 ==> commands == Commands(inputs[..i], nnodes, ppj)
      invariant nnodes == 0 ==> i == 0 && commands == []
    {
      var stub := SplitExt(inputs[i]).0;
      var nodeidx := PyMod(i, nnodes);
      if nodeidx.Err? {
        return Err(nodeidx.exc);
      }
      CommandsStep(inputs, nnodes, ppj, i);
      commands := commands + [Command(stub, nodeidx.value, ppj)];
      i := i + 1;
    }
    assert inputs[..i] == inputs;
    r := Ok(Join("\n", commands));
  }

  lemma CommandsStep(inputs: seq<string>, nnodes: int, ppj: int, i: nat)
    requires nnodes != 0 && i < |inputs|
    ensures Commands(inputs[..i + 1], nnodes, ppj) ==
      Commands(inputs[..i], nnodes, ppj) + [CommandFor(inputs[i], i, nnodes, ppj)]
  {
    assert inputs[..i + 1][..i] == inputs[..i];
  }

  /** The `k`-th command is the one of the `k`-th input. */
  lemma {:induction false} CommandsAt(inputs: seq<string>, nnodes: int, ppj: int, k: nat)
    requires nnodes != 0 && k < |inputs|
    ensures Commands(inputs, nnodes, ppj)[k] == CommandFor(inputs[k], k, nnodes, ppj)
    decreases |inputs|
  {
    if k < |inputs| - 1 {
      CommandsAt(inputs[..|inputs| - 1], nnodes, ppj, k);
    }
  }

  /** Round robin: the `k`-th input runs on node `k mod nnodes`, one of
      the `nnodes` nodes for a positive count; the first `nnodes` inputs
      get a node each, and input `k + nnodes` shares the node of input `k`. */
  lemma RoundRobin(nnodes: int, k: nat)
    requires nnodes > 0
    ensures PyMod(k, nnodes) == Ok(k % nnodes)
    ensures 0 <= PyMod(k, nnodes).value < nnodes
    ensures k < nnodes ==> PyMod(k, nnodes).value == k
    ensures PyMod(k + nnodes, nnodes) == PyMod(k, nnodes)
  {
    var q, r := k / nnodes, k % nnodes;
    assert k + nnodes == (q + 1) * nnodes + r;
    ModUnique(k + nnodes, nnodes, q + 1, r);
    if k < nnodes {
      ModUnique(k, nnodes, 0, k);
    }
  }

  /** The remainder is the only `r` in `[0, n)` with `a == q * n + r`. */
  lemma ModUnique(a: int, n: int, q: int, r: int)
    requires n > 0 && 0 <= r < n && a == q * n + r
    ensures a % n == r
  {
    var q', r' := a / n, a % n;
    assert a == q' * n + r';
    assert (q - q') * n == r' - r;
    if q' != q {
      MulAtLeast(if q' < q then q - q' else q' - q, n);
      assert false;
    }
  }

  lemma {:induction false} MulAtLeast(d: int, n: int)
    requires d >= 1 && n > 0
    ensures d * n >= n
    decreases d
  {
    if d > 1 {
      MulAtLeast(d - 1, n);
      assert d * n == (d - 1) * n + n;
    }
  }

  /** A command holds no newline when its stub holds none. */
  lemma CommandOneLine(stub: string, nodeidx: int, ppj: int)
    requires '\n' !in stub
    ensures '\n' !in Command(stub, nodeidx, ppj)
  {
    IntToStringHasNoSeparator(ppj, '\n');
    IntToStringHasNoSeparator(nodeidx, '\n');
    LiteralsOneLine();
  }

  lemma LiteralsOneLine()
    ensures '\n' !in "srun --nodes=1 --ntasks=1 --cpus-per-task="
    ensures '\n' !in " --exclusive -w ${nodelist["
    ensures '\n' !in "]} $(which qchem) -nt "
    ensures '\n' !in ".in \"${SLURM_SUBMIT_DIR}\"/"
    ensures '\n' !in ".out &"
    ensures '\n' !in " "
  {
    Literal1();
    Literal2();
    Literal3();
    Literal4();
  }

  lemma Literal1() ensures '\n' !in "srun --nodes=1 --ntasks=1 --cpus-per-task=" {}
  lemma Literal2() ensures '\n' !in " --exclusive -w ${nodelist[" {}
  lemma Literal3() ensures '\n' !in "]} $(which qchem) -nt " {}
  lemma Literal4() ensures '\n' !in ".in \"${SLURM_SUBMIT_DIR}\"/" {}

  /** The block has one line per input, in input order: for inputs without
      newlines, splitting the block at `\n` gives the commands back. */
  lemma BlockLines(inputs: seq<string>, nnodes: int, ppj: int)
    requires nnodes != 0 && |inputs| > 0
    requires forall k :: 0 <= k < |inputs| ==> '\n' !in inputs[k]
    ensures BlockSpec(inputs, nnodes, ppj).Ok?
    ensures Split(BlockSpec(inputs, nnodes, ppj).value, '\n') == Commands(inputs, nnodes, ppj)
    ensures |Split(BlockSpec(inputs, nnodes, ppj).value, '\n')| == |inputs|
  {
    var cs := Commands(inputs, nnodes, ppj);
    forall k | 0 <= k < |cs| ensures '\n' !in cs[k] {
      CommandsAt(inputs, nnodes, ppj, k);
      SplitExtMeaning(inputs[k]);
      var stub := SplitExt(inputs[k]).0;
      assert inputs[k] == stub + SplitExt(inputs[k]).1;
      assert '\n' !in stub;
      CommandOneLine(stub, PyMod(k, nnodes).value, ppj);
    }
    assert "\n" == ['\n'];
    SplitJoin(cs, '\n');
  }

  /** `name.in` runs as `name.in` and writes `name.out`: the stub of a
      plain file name is the name without its extension. */
  lemma CommandUsesStub(name: string, ext: string, k: nat, nnodes: int, ppj: int)
    requires |name| > 0 && '.' !in name && '/' !in name
    requires '.' !in ext && '/' !in ext
    requires nnodes != 0
    ensures CommandFor(name + "." + ext, k, nnodes, ppj) == Command(name, PyMod(k, nnodes).value, ppj)
  {
    SplitExtOfStubExt(name, ext);
  }

  // ---------------------------------------------------------------------
  // The checks of `main`

  /** The arguments `main` checks and uses. */
  datatype Args = Args(cluster: string, partition: string, ppn: int, ppj: int, nnodes: int)

  /** The `assert`s of `main` on the cluster layout. */
  function CheckCluster(a: Args): Result<()>
  {
    if a.cluster == "smp" then
      if a.partition != "smp" && a.partition != "high-mem" then Err(AssertionError)
      else
        var ppn := if a.partition == "smp" then 24 else 12;
        if a.ppn <= ppn && a.ppj <= ppn && a.nnodes == 1 then Ok(()) else Err(AssertionError)
    else if a.cluster == "mpi" then
      if a.partition == "opa" && a.ppn <= 28 && a.ppj <= 28 && a.nnodes >= 2 then Ok(())
      else Err(AssertionError)
    else Ok(())
  }

  /** The values `main` computes for the job file: the command block and
      the number of tasks. */
  datatype JobVars = JobVars(jobstrings: string, ntasks: int)

  /** `main` up to the job file: the checks, then the block, then
      `ntasks = ppn * nnodes`. */
  function MainSpec(a: Args, inputs: seq<string>): Result<JobVars>
  {
    match CheckCluster(a)
    case Err(e) => Err(e)
    case Ok(_) =>
      match BlockSpec(inputs, a.nnodes, a.ppj)
      case Err(e) => Err(e)
      case Ok(block) => Ok(JobVars(block, a.ppn * a.nnodes))
  }

  /** On the smp cluster the partition is smp (at most 24 cores per node
      and per job) or high-mem (at most 12), on one node; on the mpi
      cluster the partition is opa, at most 28 cores, on two nodes or
      more; any other cluster is not checked. */
  lemma CheckClusterMeaning(a: Args)
    ensures a.cluster == "smp" ==>
      (CheckCluster(a).Ok? <==>
        ((a.partition == "smp" && a.ppn <= 24 && a.ppj <= 24) ||
         (a.partition == "high-mem" && a.ppn <= 12 && a.ppj <= 12)) && a.nnodes == 1)
    ensures a.cluster == "mpi" ==>
      (CheckCluster(a).Ok? <==> a.partition == "opa" && a.ppn <= 28 && a.ppj <= 28 && a.nnodes >= 2)
    ensures a.cluster != "smp" && a.cluster != "mpi" ==> CheckCluster(a).Ok?
    ensures CheckCluster(a).Err? ==> CheckCluster(a).exc == AssertionError
  {
  }

  /** A job that passes the checks on a named cluster has a positive node
      count, so the block is built; its task count is `ppn * nnodes`. */
  lemma MainMeaning(a: Args, inputs: seq<string>)
    requires a.cluster == "smp" || a.cluster == "mpi"
    ensures MainSpec(a, inputs).Ok? <==> CheckCluster(a).Ok?
    ensures MainSpec(a, inputs).Ok? ==>
      MainSpec(a, inputs).value.ntasks == a.ppn * a.nnodes &&
      MainSpec(a, inputs).value.jobstrings == Join("\n", Commands(inputs, a.nnodes, a.ppj))
  {
  }
}
