/** frank/submit-dalton.py: choosing the parallel build of DALTON from the
    `--omp`/`--mpi` flags and writing the PBS job file that copies the
    input and any extra files to `$LOCAL` and runs it there. */
module SubmitDalton {
  import opened Py
  import opened Strs
  import PosixPath

  // ---------------------------------------------------------------------
  // The parallel implementation

  /** `determine_parallelism(args)`. Both flags or only `--mpi` select the
      MPI build, only `--omp` or neither the OpenMP one. The four tests
      cover every pair of flags, so the last branch is never taken: the
      result is always `Ok`. Were it taken, its first call, to `logging`,
      would raise NameError before `sys.exit(1)` is reached, because the
      script never imports `logging`. */
  function DetermineParallelism(omp: bool, mpi: bool): (r: Result<string>)
    ensures r.Ok?
    ensures r.value == "mpi" || r.value == "omp"
    ensures r.value == "mpi" <==> mpi
  {
    if omp && mpi then Ok("mpi")
    else if omp && !mpi then Ok("omp")
    else if !omp && mpi then Ok("mpi")
    else if !omp && !mpi then Ok("omp")
    else assert false; Err(NameError)
  }

  /** What the parallel implementation selects in the job file: the flag
      that sets the number of processes or threads and the environment
      module to load. */
  datatype Build = Build(flag: string, envModule: string)

  /** The `parimpl` branch of `template_pbsfile_dalton`: `mpi` and `omp`
      pick their build, and any other value reaches a bare `raise`, which
      with no exception being handled is a RuntimeError. */
  function ParFlag(parimpl: string): (r: Result<Build>)
    ensures r.Ok? <==> parimpl == "mpi" || parimpl == "omp"
    ensures r.Err? ==> r.exc == RuntimeError
    ensures r.Ok? ==> (r.value.flag == "-N" <==> parimpl == "mpi")
    ensures r.Ok? ==> (r.value.flag == "-nt" <==> parimpl == "omp")
    ensures r.Ok? ==> r.value.envModule == "dalton/2015-i2013.0-mkl-" + parimpl
  {
    if parimpl == "mpi" then Ok(Build("-N", "dalton/2015-i2013.0-mkl-mpi"))
    else if parimpl == "omp" then Ok(Build("-nt", "dalton/2015-i2013.0-mkl-omp"))
    else Err(RuntimeError)
  }

  /** Whatever the flags, the implementation the script chooses is one the
      template accepts: `-N` and the MPI module exactly when `--mpi` is
      given. */
  lemma ChosenBuildAccepted(omp: bool, mpi: bool)
    ensures ParFlag(DetermineParallelism(omp, mpi).value).Ok?
    ensures ParFlag(DetermineParallelism(omp, mpi).value).value.flag == (if mpi then "-N" else "-nt")
  {
    var p := DetermineParallelism(omp, mpi).value;
    assert p == (if mpi then "mpi" else "omp");
  }

  // ---------------------------------------------------------------------
  // The extra files

  /** The `--extrafiles` value: absent (`None`), a list of names, or any
      other value, given here as the text `format` makes of it. */
  datatype Extra = NoExtra | Files(names: seq<string>) | Other(text: string)

  /** One line of the job file's shell script, without its newline. */
  function CopyCommand(f: string): string
  {
    "cp $PBS_O_WORKDIR/" + f + " $LOCAL"
  }

  /** `copy_string_template.format(f)`. */
  function CopyLine(f: string): (r: string)
    ensures r == CopyCommand(f) + "\n"
  {
    "cp $PBS_O_WORKDIR/" + f + " $LOCAL\n"
  }

  /** The `copy_strings` list the loop over a list of extra files builds:
      one copy line per file, in the files' order. */
  function CopyStrings(fs: seq<string>): (r: seq<string>)
    ensures |r| == |fs|
    ensures forall k :: 0 <= k < |fs| ==> r[k] == CopyLine(fs[k])
    decreases |fs|
  {
    if |fs| == 0 then [] else [CopyLine(fs[0])] + CopyStrings(fs[1..])
  }

  /** `joined_extrafiles`: nothing for `None`, the copy lines joined with
      `''` for a list, and a single copy line for any other value, which
      is what a one-element list would give. */
  function JoinedExtrafiles(e: Extra): (r: string)
    ensures e.NoExtra? ==> r == ""
    ensures e.Other? ==> r == Join("", CopyStrings([e.text]))
  {
    match e
    case NoExtra => ""
    case Files(fs) => Join("", CopyStrings(fs))
    case Other(t) => CopyLine(t)
  }

  /** Newline-terminated lines joined with `''` are the lines joined with
      newlines, plus the empty piece after the last newline. */
  lemma {:induction false} TerminatedJoin(ls: seq<string>, ts: seq<string>)
    requires |ts| == |ls|
    requires forall k :: 0 <= k < |ls| ==> ts[k] == ls[k] + "\n"
    ensures Join("", ts) == Join("\n", ls + [""])
    decreases |ls|
  {
    if |ls| == 1 {
      assert ls + [""] == [ls[0], ""];
    } else if |ls| > 1 {
      TerminatedJoin(ls[1..], ts[1..]);
      assert (ls + [""])[1..] == ls[1..] + [""];
    }
  }

  predicate NoNewline(s: string)
  {
    '\n' !in s
  }

  lemma CopyCommandNoNewline(f: string)
    requires NoNewline(f)
    ensures NoNewline(CopyCommand(f))
  {
    var c := CopyCommand(f);
    forall j | 0 <= j < |c|
      ensures c[j] != '\n'
    {
      if 18 <= j < 18 + |f| {
        assert c[j] == f[j - 18];
      }
    }
  }

  /** For a list of names without newlines, the extra-files text is one
      line per file, in order, each copying that file to `$LOCAL`, with
      nothing after the last newline. */
  lemma ExtraFilesLines(fs: seq<string>)
    requires forall k :: 0 <= k < |fs| ==> NoNewline(fs[k])
    ensures |Split(JoinedExtrafiles(Files(fs)), '\n')| == |fs| + 1
    ensures forall k :: 0 <= k < |fs| ==> Split(JoinedExtrafiles(Files(fs)), '\n')[k] == CopyCommand(fs[k])
    ensures Split(JoinedExtrafiles(Files(fs)), '\n')[|fs|] == ""
  {
    var ls := seq(|fs|, k requires 0 <= k < |fs| => CopyCommand(fs[k]));
    TerminatedJoin(ls, CopyStrings(fs));
    forall k | 0 <= k < |ls + [""]|
      ensures '\n' !in (ls + [""])[k]
    {
      if k < |fs| {
        CopyCommandNoNewline(fs[k]);
      }
    }
    SplitJoin(ls + [""], '\n');
  }

  // ---------------------------------------------------------------------
  // The job file

  /** The values `template_pbsfile_dalton` fills into its fixed text: the
      job and input name, the queue, the cores, the walltime in hours, the
      user to mail, the build, and the extra-files text. */
  datatype JobFile = JobFile(inpfile: string, queue: string, ppn: int, time: int,
                             username: string, build: Build, extrafiles: string)

  /** The job file's text: the PBS directives, loading the build's module,
      copying the input and then the extra files to `$LOCAL`, and running
      DALTON there with the build's flag. */
  function Render(j: JobFile): string
  {
    "#!/usr/bin/env bash\n\n"
    + "#PBS -N " + j.inpfile + "\n"
    + "#PBS -q " + j.queue + "\n"
    + "#PBS -l nodes=1:ppn=" + IntToString(j.ppn) + "\n"
    + "#PBS -l walltime=" + IntToString(j.time) + ":00:00\n"
    + "#PBS -j oe\n#PBS -m abe\n"
    + "#PBS -M " + j.username + "@pitt.edu\n\n"
    + "module purge\nmodule load " + j.build.envModule + "\n\n"
    + "cp $PBS_O_WORKDIR/" + j.inpfile + ".dal $LOCAL\n"
    + j.extrafiles
    + "cd $LOCAL\n\nrun_on_exit() {\n    set -v\n    cp -R $LOCAL/* $PBS_O_WORKDIR\n}\n\n"
    + "trap run_on_exit EXIT\n\n"
    + "`which dalton` " + j.build.flag + " " + IntToString(j.ppn) + " " + j.inpfile + ".dal\n"
  }

  /** `template_pbsfile_dalton`, with the user name the script reads from
      the environment as a parameter, giving the values it fills in (the
      text is `Render` of them). It fails exactly when `parimpl` is
      neither `mpi` nor `omp`, and otherwise runs with `-N` exactly for
      `mpi`. */
  function TemplatePbsfile(inpfile: string, ppn: int, time: int, queue: string, parimpl: string,
                           extra: Extra, username: string): (r: Result<JobFile>)
    ensures r.Ok? <==> parimpl == "mpi" || parimpl == "omp"
    ensures r.Err? ==> r.exc == RuntimeError
    ensures r.Ok? ==> (r.value.build.flag == "-N" <==> parimpl == "mpi")
    ensures r.Ok? ==> r.value.inpfile == inpfile && r.value.ppn == ppn && r.value.extrafiles == JoinedExtrafiles(extra)
  {
    match ParFlag(parimpl)
    case Err(e) => Err(e)
    case Ok(b) => Ok(JobFile(inpfile, queue, ppn, time, username, b, JoinedExtrafiles(extra)))
  }

  /** The script's main block: the job file's name (the input's name
      without its extension, plus `.pbs`) and what is written into it. */
  function Submit(inpfilename: string, ppn: int, time: int, queue: string, omp: bool, mpi: bool,
                  extra: Extra, username: string): (r: Result<(string, JobFile)>)
  {
    var parimpl := DetermineParallelism(omp, mpi).value;
    var stem := PosixPath.SplitExt(inpfilename).0;
    match TemplatePbsfile(stem, ppn, time, queue, parimpl, extra, username)
    case Err(e) => Err(e)
    case Ok(j) => Ok((stem + ".pbs", j))
  }

  /** The script never reaches the bare `raise`: for every pair of flags it
      writes `<stem>.pbs`, where the input is `<stem>` plus an extension,
      for a job on `<stem>` that runs with `-N` exactly when `--mpi` is
      given and `-nt` otherwise. */
  lemma SubmitSucceeds(inpfilename: string, ppn: int, time: int, queue: string, omp: bool, mpi: bool,
                       extra: Extra, username: string)
    ensures Submit(inpfilename, ppn, time, queue, omp, mpi, extra, username).Ok?
    ensures var r := Submit(inpfilename, ppn, time, queue, omp, mpi, extra, username).value;
      && EndsWith(r.0, ".pbs")
      && r.1.inpfile + ".pbs" == r.0
      && r.1.inpfile + PosixPath.SplitExt(inpfilename).1 == inpfilename
      && PosixPath.ExtShaped(PosixPath.SplitExt(inpfilename).1)
      && r.1.build.flag == (if mpi then "-N" else "-nt")
  {
    ChosenBuildAccepted(omp, mpi);
    PosixPath.SplitExtMeaning(inpfilename);
    var stem := PosixPath.SplitExt(inpfilename).0;
    assert (stem + ".pbs")[|stem|..] == ".pbs";
  }
}
