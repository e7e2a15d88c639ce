/**
  The Rust variant (`src/main.rs`): the `VerilogRunnerApp` state behind the
  egui window (testbench list, dependency list, selection), single-level
  dependency detection, and the free function `run_verilog_thread` with its
  early returns. The shared output log is an object holding the messages
  appended so far; its mutex is left out.
 */
module RustRunner {
  import opened Wrappers
  import opened Text
  import opened Scanner
  import opened Resolver
  import opened Selection
  import opened Toolchain

  /** A `read_dir` entry kept for the testbench list. */
  predicate IsTestbenchName(n: string) {
    EndsWith(n, TestbenchSuffix)
  }

  /** A `read_dir` entry kept for the dependency list; hidden names are not skipped. */
  predicate IsDependencyName(n: string) {
    EndsWith(n, ".v") && !EndsWith(n, TestbenchSuffix)
  }

  /**
    What `detect_dependencies` marks: the direct references of a readable
    testbench plus the conventional device under test; nothing at all when
    the testbench cannot be read.
   */
  function Detected(dir: Folder, tb: string): (r: set<string>)
    ensures r <= dir.files.Keys
    ensures Read(dir, tb).None? ==> r == {}
  {
    match Read(dir, tb)
    case None => {}
    case Some(text) => DirectDependencies(dir, tb, text, Rust)
  }

  /**
    No transitive step: a file is detected only if the testbench itself
    refers to it, or it is the conventional device under test and the
    testbench was readable.
   */
  lemma DetectedMembership(dir: Folder, tb: string, f: string)
    ensures f in Detected(dir, tb)
        <==> && Read(dir, tb).Some?
             && f in dir.files
             && (|| f == ConventionName(tb)
                 || exists m :: m in Scan(Read(dir, tb).value) && !IsReserved(Rust, m) && f == ModuleFile(m))
  {
    if Read(dir, tb).Some? {
      ReferencedFilesMembership(dir, Read(dir, tb).value, Rust, f);
    }
  }

  /** A flagged entry of the dependency list. */
  datatype DependencyFile = DependencyFile(name: string, checked: bool)

  function Names(ds: seq<DependencyFile>): (r: seq<string>)
    ensures |r| == |ds| && forall i :: 0 <= i < |ds| ==> r[i] == ds[i].name
  {
    seq(|ds|, i requires 0 <= i < |ds| => ds[i].name)
  }

  function Flags(ds: seq<DependencyFile>): (r: seq<bool>)
    ensures |r| == |ds| && forall i :: 0 <= i < |ds| ==> r[i] == ds[i].checked
  {
    seq(|ds|, i requires 0 <= i < |ds| => ds[i].checked)
  }

  // ---------------------------------------------------------------------------
  // The pipeline, as a function of the oracle outcomes.

  /** What a run wrote to the log and the directory it left. */
  datatype Trace = Trace(log: seq<Message>, files: Files)

  /** The simulator's messages: its exit status is never looked at, nor its error output. */
  function SimulateLog(name: string, r: ToolResult): seq<Message> {
    [Running(SimulateCommand(name))]
      + match r
        case Exited(_, out, _, _) => [SimulationResults, ToolOutput(out), ToolOutput("\n")]
        case LaunchFailed(_, e) => [ToolError("vvp", e)]
  }

  /**
    The viewer's messages: launched when the option is on and `<name>.vcd`
    exists. The outcome of the launch is discarded, and success is reported
    either way.
   */
  function ViewLog(name: string, files: Files, viewerOn: bool): seq<Message> {
    if !viewerOn then []
    else if VcdFile(name) in files then [Running(ViewCommand(name)), ViewerLaunched(None)]
    else [VcdMissing(VcdFile(name))]
  }

  /** Clean-up: the removal's outcome is discarded, and the message is written either way. */
  function CleanupLog(name: string, files: Files): seq<Message> {
    if name in files then [ArtifactRemoved(name)] else []
  }

  function CleanupFiles(name: string, files: Files, rm: RemoveResult): Files {
    if name in files && rm.RemoveOk? then files - {name} else files
  }

  /** Everything after a successful compile, in the folder the compiler left. */
  function AfterBuild(name: string, files: Files, viewerOn: bool, env: Env): Trace {
    var simulated := FilesAfter(files, env.simulator);
    Trace(SimulateLog(name, env.simulator) + ViewLog(name, simulated, viewerOn)
            + CleanupLog(name, simulated) + [RunFinished(name)],
          CleanupFiles(name, simulated, env.removal))
  }

  /** The opening messages, up to and including the compile command. */
  function StartLog(name: string, tb: string, deps: seq<string>, path: string): seq<Message> {
    [RunStarted(name), WorkingDirectory(path), TestbenchIs(tb), DependenciesAre(deps), Running(CompileCommand(name, tb, deps))]
  }

  /**
    `run_verilog_thread`: a failed compile or a compiler that cannot be
    started ends the run at once; otherwise simulate, view and clean up.
   */
  function ThreadRun(tb: string, deps: seq<string>, path: string, files: Files, viewerOn: bool, env: Env): Trace {
    var name := ArtifactName(tb);
    var start := StartLog(name, tb, deps, path);
    match env.compiler
    case LaunchFailed(_, e) => Trace(start + [ToolError("iverilog", e)], files)
    case Exited(code, _, err, after) =>
      if code != 0 then Trace(start + [CompileFailed(err)], after)
      else
        var rest := AfterBuild(name, after, viewerOn, env);
        Trace(start + [CompileSucceeded] + rest.log, rest.files)
  }

  // ---------------------------------------------------------------------------
  // What the pipeline guarantees.

  /** The compiler is the first command launched, with exactly these arguments. */
  lemma FirstCommandIsCompile(tb: string, deps: seq<string>, path: string, files: Files, viewerOn: bool, env: Env)
    ensures var log := ThreadRun(tb, deps, path, files, viewerOn, env).log;
      && |log| > 4 && log[4] == Running(CompileCommand(ArtifactName(tb), tb, deps))
      && forall i :: 0 <= i < 4 ==> !log[i].Running?
  {
    var name := ArtifactName(tb);
    var start := StartLog(name, tb, deps, path);
    match env.compiler
    case LaunchFailed(_, e) =>
      assert (start + [ToolError("iverilog", e)])[4] == start[4];
    case Exited(code, _, err, after) =>
      if code != 0 {
        assert (start + [CompileFailed(err)])[4] == start[4];
      } else {
        var rest := AfterBuild(name, after, viewerOn, env);
        assert (start + [CompileSucceeded] + rest.log)[4] == start[4];
      }
  }

  /**
    A compile that fails or cannot start ends the run: no simulation, no
    viewer, no clean-up message and no closing banner; whatever the compiler
    left in the folder stays.
   */
  lemma CompileFailureStops(tb: string, deps: seq<string>, path: string, files: Files, viewerOn: bool, env: Env)
    requires !Succeeded(env.compiler)
    ensures var name := ArtifactName(tb);
      var run := ThreadRun(tb, deps, path, files, viewerOn, env);
      && run.files == FilesAfter(files, env.compiler)
      && run.log[|run.log| - 1]
         == (if env.compiler.Exited? then CompileFailed(env.compiler.stderr) else ToolError("iverilog", env.compiler.detail))
      && Running(SimulateCommand(name)) !in run.log
      && Running(ViewCommand(name)) !in run.log
      && ArtifactRemoved(name) !in run.log
      && RunFinished(name) !in run.log
  {
    var name := ArtifactName(tb);
    assert SimulateCommand(name) != CompileCommand(name, tb, deps) by {
      assert SimulateCommand(name)[0] != CompileCommand(name, tb, deps)[0];
    }
    assert ViewCommand(name) != CompileCommand(name, tb, deps) by {
      assert ViewCommand(name)[0] != CompileCommand(name, tb, deps)[0];
    }
  }

  lemma AfterBuildFacts(name: string, files: Files, viewerOn: bool, env: Env)
    ensures var simulated := FilesAfter(files, env.simulator);
      var rest := AfterBuild(name, files, viewerOn, env);
      && Running(SimulateCommand(name)) in rest.log
      && (Running(ViewCommand(name)) in rest.log <==> viewerOn && VcdFile(name) in simulated)
      && (VcdMissing(VcdFile(name)) in rest.log <==> viewerOn && VcdFile(name) !in simulated)
      && (ViewerLaunched(None) in rest.log <==> Running(ViewCommand(name)) in rest.log)
      && (ArtifactRemoved(name) in rest.log <==> name in simulated)
      && rest.log[|rest.log| - 1] == RunFinished(name)
  {
    assert SimulateCommand(name)[0] != ViewCommand(name)[0];
  }

  /**
    After a successful compile the simulator always runs, and the viewer
    depends only on the option and the `.vcd` file, never on the
    simulator's exit status; when the option is on and the file is missing
    a warning is written instead.
   */
  lemma ViewerIgnoresSimulationStatus(tb: string, deps: seq<string>, path: string, files: Files, viewerOn: bool, env: Env)
    requires Succeeded(env.compiler)
    ensures var name := ArtifactName(tb);
      var simulated := FilesAfter(env.compiler.after, env.simulator);
      var log := ThreadRun(tb, deps, path, files, viewerOn, env).log;
      && Running(SimulateCommand(name)) in log
      && (Running(ViewCommand(name)) in log <==> viewerOn && VcdFile(name) in simulated)
      && (VcdMissing(VcdFile(name)) in log <==> viewerOn && VcdFile(name) !in simulated)
  {
    var name := ArtifactName(tb);
    var start := StartLog(name, tb, deps, path);
    AfterBuildFacts(name, env.compiler.after, viewerOn, env);
    assert ViewCommand(name)[0] != CompileCommand(name, tb, deps)[0];
    assert Running(ViewCommand(name)) !in start + [CompileSucceeded];
  }

  /**
    After a successful compile, clean-up is reported whenever the artifact
    exists, even when its removal failed and the file is still there; the
    run then announces completion.
   */
  lemma CleanupReportedRegardless(tb: string, deps: seq<string>, path: string, files: Files, viewerOn: bool, env: Env)
    requires Succeeded(env.compiler)
    ensures var name := ArtifactName(tb);
      var simulated := FilesAfter(env.compiler.after, env.simulator);
      var run := ThreadRun(tb, deps, path, files, viewerOn, env);
      && (ArtifactRemoved(name) in run.log <==> name in simulated)
      && (name in run.files <==> name in simulated && env.removal.RemoveError?)
      && (forall f :: f != name ==> (f in run.files <==> f in simulated))
      && run.log[|run.log| - 1] == RunFinished(name)
  {
    var name := ArtifactName(tb);
    var start := StartLog(name, tb, deps, path);
    var rest := AfterBuild(name, env.compiler.after, viewerOn, env);
    AfterBuildFacts(name, env.compiler.after, viewerOn, env);
    assert ArtifactRemoved(name) !in start + [CompileSucceeded];
    assert (start + [CompileSucceeded] + rest.log)[|start + [CompileSucceeded] + rest.log| - 1] == rest.log[|rest.log| - 1];
  }

  /** The viewer's launch outcome has no effect: the run is the same whatever it was. */
  lemma ViewerOutcomeIgnored(tb: string, deps: seq<string>, path: string, files: Files, viewerOn: bool, env: Env, other: SpawnResult)
    ensures ThreadRun(tb, deps, path, files, viewerOn, env) == ThreadRun(tb, deps, path, files, viewerOn, env.(viewer := other))
  {
  }

  // ---------------------------------------------------------------------------
  // The shared log and the application state.

  /** The `Arc<Mutex<String>>` output log, as the messages appended to it. */
  class OutputLog {
    var text: seq<Message>

    constructor ()
      ensures text == []
    {
      text := [];
    }
  }

  /** `log_to_output`: append one message; what was there stays. */
  method LogToOutput(output: OutputLog, m: Message)
    modifies output
    ensures output.text == old(output.text) + [m]
  {
    output.text := output.text + [m];
  }

  /**
    `run_verilog_thread`, writing to `output` as it goes; returns the folder's
    contents afterwards.
   */
  method RunVerilogThread(tb: string, deps: seq<string>, directory: string, output: OutputLog,
                          gtkwaveEnabled: bool, files: Files, env: Env)
      returns (after: Files)
    modifies output
    ensures var run := ThreadRun(tb, deps, directory, files, gtkwaveEnabled, env);
      output.text == old(output.text) + run.log && after == run.files
  {
    var name := ArtifactName(tb);
    LogToOutput(output, RunStarted(name));
    LogToOutput(output, WorkingDirectory(directory));
    LogToOutput(output, TestbenchIs(tb));
    LogToOutput(output, DependenciesAre(deps));
    var cmdArgs := ["-Wall", "-o", name, tb];
    for i := 0 to |deps|
      invariant cmdArgs == ["-Wall", "-o", name, tb] + deps[..i]
    {
      cmdArgs := cmdArgs + [deps[i]];
    }
    assert deps[..|deps|] == deps;
    assert ["iverilog"] + cmdArgs == CompileCommand(name, tb, deps);
    LogToOutput(output, Running(["iverilog"] + cmdArgs));
    ghost var start := output.text;
    assert start == old(output.text) + StartLog(name, tb, deps, directory);
    match env.compiler
    case LaunchFailed(_, e) =>
      LogToOutput(output, ToolError("iverilog", e));
      return files;
    case Exited(code, _, err, built) =>
      if code != 0 {
        LogToOutput(output, CompileFailed(err));
        return built;
      }
      LogToOutput(output, CompileSucceeded);
      ghost var afterBuild := output.text;
      ghost var rest := AfterBuild(name, built, gtkwaveEnabled, env);
      Assoc(old(output.text), StartLog(name, tb, deps, directory), [CompileSucceeded]);
      Assoc(old(output.text), StartLog(name, tb, deps, directory) + [CompileSucceeded], rest.log);
      var simulated := Simulate(output, name, built, env.simulator);
      View(output, name, simulated, gtkwaveEnabled);
      after := Cleanup(output, name, simulated, env.removal);
      LogToOutput(output, RunFinished(name));
      ghost var sim, view, clean := SimulateLog(name, env.simulator), ViewLog(name, simulated, gtkwaveEnabled), CleanupLog(name, simulated);
      assert output.text == afterBuild + sim + view + clean + [RunFinished(name)];
      assert rest.log == sim + view + clean + [RunFinished(name)];
      Assoc(afterBuild, sim + view + clean, [RunFinished(name)]);
      Assoc(afterBuild, sim + view, clean);
      Assoc(afterBuild, sim, view);
  }

  /** The simulation block of `run_verilog_thread`; returns the folder as the simulator left it. */
  method Simulate(output: OutputLog, name: string, files: Files, r: ToolResult) returns (after: Files)
    modifies output
    ensures output.text == old(output.text) + SimulateLog(name, r)
    ensures after == FilesAfter(files, r)
  {
    LogToOutput(output, Running(SimulateCommand(name)));
    match r {
      case Exited(_, out, _, _) =>
        LogToOutput(output, SimulationResults);
        LogToOutput(output, ToolOutput(out));
        LogToOutput(output, ToolOutput("\n"));
      case LaunchFailed(_, e) =>
        LogToOutput(output, ToolError("vvp", e));
    }
    after := FilesAfter(files, r);
  }

  /** The viewer block of `run_verilog_thread`; the spawn's result is dropped unread. */
  method View(output: OutputLog, name: string, files: Files, gtkwaveEnabled: bool)
    modifies output
    ensures output.text == old(output.text) + ViewLog(name, files, gtkwaveEnabled)
  {
    if gtkwaveEnabled {
      var vcdFile := VcdFile(name);
      if vcdFile in files {
        LogToOutput(output, Running(ViewCommand(name)));
        LogToOutput(output, ViewerLaunched(None));
      } else {
        LogToOutput(output, VcdMissing(vcdFile));
      }
    }
  }

  /** The clean-up block of `run_verilog_thread`; the removal's result is dropped unread. */
  method Cleanup(output: OutputLog, name: string, files: Files, rm: RemoveResult) returns (after: Files)
    modifies output
    ensures output.text == old(output.text) + CleanupLog(name, files)
    ensures after == CleanupFiles(name, files, rm)
  {
    after := files;
    if name in files {
      if rm.RemoveOk? {
        after := files - {name};
      }
      LogToOutput(output, ArtifactRemoved(name));
    }
  }

  class VerilogRunnerApp {
    /** The folder whose files are listed; every file name below is relative to it. */
    var selectedDirectory: string
    var testbenchFiles: seq<string>
    var dependencyFiles: seq<DependencyFile>
    /** An index into `testbenchFiles`, once one has been clicked. */
    var selectedTestbench: Option<nat>
    /** The "open the waveform viewer" and "detect dependencies" options. */
    var gtkwaveEnabled: bool
    var autoDetectEnabled: bool
    const outputLog: OutputLog

    /**
      The dependency list shows `dir`'s dependency files in sorted order, and
      an entry is checked exactly when it was auto-detected.
     */
    ghost predicate ListsDependencies(dir: Folder, auto: Option<set<string>>)
      reads this
    {
      && StrictlySorted(Names(dependencyFiles))
      && (forall n :: n in Names(dependencyFiles) <==> n in Listing(dir) && IsDependencyName(n))
      && (forall i :: 0 <= i < |dependencyFiles| ==>
            dependencyFiles[i].checked == (auto.Some? && dependencyFiles[i].name in auto.value))
    }

    /**
      `new`: both options on; rebuilding the folder tree always reports
      success; then the testbench list of the working directory.
     */
    constructor (cwd: string, dir: Folder)
      ensures selectedDirectory == cwd && gtkwaveEnabled && autoDetectEnabled
      ensures selectedTestbench == None && dependencyFiles == []
      ensures StrictlySorted(testbenchFiles)
      ensures forall n :: n in testbenchFiles <==> n in Listing(dir) && IsTestbenchName(n)
      ensures fresh(outputLog) && outputLog.text == [FolderTreeRefreshed]
    {
      selectedDirectory := cwd;
      testbenchFiles := [];
      dependencyFiles := [];
      selectedTestbench := None;
      gtkwaveEnabled, autoDetectEnabled := true, true;
      outputLog := new OutputLog();
      new;
      LogToOutput(outputLog, FolderTreeRefreshed);
      UpdateTestbenchList(dir);
    }

    /**
      `update_testbench_list`: clear both lists and the selection, then list
      the folder's `*_tb.v` names in sorted order.
     */
    method UpdateTestbenchList(dir: Folder)
      modifies this`testbenchFiles, this`dependencyFiles, this`selectedTestbench
      ensures dependencyFiles == [] && selectedTestbench == None
      ensures StrictlySorted(testbenchFiles)
      ensures forall n :: n in testbenchFiles <==> n in Listing(dir) && IsTestbenchName(n)
    {
      testbenchFiles := [];
      dependencyFiles := [];
      selectedTestbench := None;
      var files := SortedListing(dir, IsTestbenchName);
      for i := 0 to |files|
        invariant testbenchFiles == files[..i]
        invariant dependencyFiles == [] && selectedTestbench == None
      {
        testbenchFiles := testbenchFiles + [files[i]];
      }
      assert files[..|files|] == files;
    }

    /**
      `update_dependency_list`: rebuild the list from the folder's `.v`
      files that are not testbenches, sorted, checking the auto-detected ones.
     */
    method UpdateDependencyList(dir: Folder, auto: Option<set<string>>)
      modifies this`dependencyFiles
      ensures ListsDependencies(dir, auto)
    {
      dependencyFiles := [];
      var files := SortedListing(dir, IsDependencyName);
      for i := 0 to |files|
        invariant Names(dependencyFiles) == files[..i]
        invariant forall j :: 0 <= j < i ==>
            dependencyFiles[j].checked == (auto.Some? && dependencyFiles[j].name in auto.value)
      {
        var checked := auto.Some? && files[i] in auto.value;
        dependencyFiles := dependencyFiles + [DependencyFile(files[i], checked)];
        assert Names(dependencyFiles) == files[..i + 1];
      }
      assert files[..|files|] == files;
    }

    /**
      `detect_dependencies`: scan the testbench line by line, add the
      conventional device under test, and check the result in the list.
     */
    method DetectDependencies(dir: Folder, tb: string)
      modifies this`dependencyFiles
      ensures ListsDependencies(dir, Some(Detected(dir, tb)))
    {
      var dependencies: set<string> := {};
      match Read(dir, tb) {
        case Some(content) =>
          dependencies := CollectReferences(dir, content, Rust);
          var mainModule := ConventionName(tb);
          if mainModule in dir.files {
            dependencies := dependencies + {mainModule};
          }
        case None =>
      }
      UpdateDependencyList(dir, Some(dependencies));
    }

    /** A click on testbench `idx`: select it and rebuild the dependency list. */
    method OnTestbenchClicked(dir: Folder, idx: nat)
      requires idx < |testbenchFiles|
      modifies this`selectedTestbench, this`dependencyFiles
      ensures selectedTestbench == Some(idx)
      ensures ListsDependencies(dir, if autoDetectEnabled then Some(Detected(dir, testbenchFiles[idx])) else None)
    {
      selectedTestbench := Some(idx);
      if autoDetectEnabled {
        DetectDependencies(dir, testbenchFiles[idx]);
      } else {
        UpdateDependencyList(dir, None);
      }
    }

    /** `select_all_deps`: every entry checked, the names untouched. */
    method SelectAllDeps()
      modifies this`dependencyFiles
      ensures Names(dependencyFiles) == Names(old(dependencyFiles))
      ensures forall i :: 0 <= i < |dependencyFiles| ==> dependencyFiles[i].checked
    {
      for i := 0 to |dependencyFiles|
        invariant Names(dependencyFiles) == Names(old(dependencyFiles))
        invariant forall j :: 0 <= j < i ==> dependencyFiles[j].checked
      {
        dependencyFiles := dependencyFiles[i := dependencyFiles[i].(checked := true)];
      }
    }

    /** `deselect_all_deps`: every entry unchecked, the names untouched. */
    method DeselectAllDeps()
      modifies this`dependencyFiles
      ensures Names(dependencyFiles) == Names(old(dependencyFiles))
      ensures forall i :: 0 <= i < |dependencyFiles| ==> !dependencyFiles[i].checked
    {
      for i := 0 to |dependencyFiles|
        invariant Names(dependencyFiles) == Names(old(dependencyFiles))
        invariant forall j :: 0 <= j < i ==> !dependencyFiles[j].checked
      {
        dependencyFiles := dependencyFiles[i := dependencyFiles[i].(checked := false)];
      }
    }

    /**
      The selection part of `run_verilog`: a run needs a selected index
      within the testbench list; it takes that testbench and the checked
      names in list order.
     */
    function RunRequest(): (r: Option<(string, seq<string>)>)
      reads this
      ensures r.Some? <==> selectedTestbench.Some? && selectedTestbench.value < |testbenchFiles|
      ensures r.Some? ==> r.value.0 == testbenchFiles[selectedTestbench.value]
      ensures r.Some? ==> forall n :: n in r.value.1 <==>
                exists i :: 0 <= i < |dependencyFiles| && dependencyFiles[i].checked && dependencyFiles[i].name == n
      ensures r.Some? && StrictlySorted(Names(dependencyFiles)) ==> StrictlySorted(r.value.1) && Distinct(r.value.1)
    {
      match selectedTestbench
      case None => None
      case Some(idx) =>
        if idx < |testbenchFiles| then
          var deps := Chosen(Names(dependencyFiles), Flags(dependencyFiles));
          assert forall n :: n in deps <==>
              exists i :: 0 <= i < |dependencyFiles| && dependencyFiles[i].checked && dependencyFiles[i].name == n by {
            forall n {
              ChosenMembership(Names(dependencyFiles), Flags(dependencyFiles), n);
            }
          }
          assert StrictlySorted(Names(dependencyFiles)) ==> StrictlySorted(deps) && Distinct(deps) by {
            if StrictlySorted(Names(dependencyFiles)) {
              ChosenSorted(Names(dependencyFiles), Flags(dependencyFiles));
              StrictlySortedDistinct(deps);
            }
          }
          Some((testbenchFiles[idx], deps))
        else None
    }

    /**
      `run_verilog`: with a valid selection, warn when no dependency is
      checked, then run the pipeline (on a worker thread in the source).
     */
    method RunVerilog(files: Files, env: Env) returns (after: Files)
      modifies outputLog
      ensures match RunRequest()
        case None => outputLog.text == old(outputLog.text) && after == files
        case Some((tb, deps)) =>
          var run := ThreadRun(tb, deps, selectedDirectory, files, gtkwaveEnabled, env);
          && outputLog.text == old(outputLog.text) + (if deps == [] then [NoDependenciesSelected] else []) + run.log
          && after == run.files
    {
      after := files;
      match RunRequest()
      case None =>
      case Some((tb, deps)) =>
        if deps == [] {
          LogToOutput(outputLog, NoDependenciesSelected);
        }
        after := RunVerilogThread(tb, deps, selectedDirectory, outputLog, gtkwaveEnabled, files, env);
    }
  }
}
