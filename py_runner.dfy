/**
  The Python variant (`Verilog_HDL_Runner.py`): the `VerilogRunner` object
  with its dependency list and output log, the transitive dependency
  resolver, and the compile / simulate / view / clean-up pipeline that a
  worker thread runs. Tk widgets are reduced to the values they hold: the
  check buttons to `depVars`, the output text to `log`.
 */
module PythonRunner {
  import opened Wrappers
  import opened Text
  import opened Scanner
  import opened Resolver
  import opened Selection
  import opened Toolchain

  /** `glob('*.v')` minus the testbenches: `*` skips hidden names. */
  predicate IsDependencyName(n: string) {
    EndsWith(n, ".v") && !EndsWith(n, TestbenchSuffix) && !StartsWith(n, ".")
  }

  // ---------------------------------------------------------------------------
  // The transitive resolver.

  /**
    The inner loop of `detect_nested_dependencies` over one file's matches:
    every existing, not yet known `<name>.v` joins the result and the back of
    the worklist.
   */
  method AddReferencedModules(dir: Folder, matches: seq<string>, result: set<string>, filesToCheck: seq<string>)
      returns (result': set<string>, filesToCheck': seq<string>)
    ensures result' == result + FilesFor(dir, matches, Python)
    ensures forall f :: f in filesToCheck' <==> f in filesToCheck || f in result' - result
  {
    result', filesToCheck' := result, filesToCheck;
    for i := 0 to |matches|
      invariant result' == result + FilesFor(dir, matches[..i], Python)
      invariant forall f :: f in filesToCheck' <==> f in filesToCheck || f in result' - result
    {
      var moduleName := matches[i];
      FilesForAppend(dir, matches[..i], moduleName, Python);
      assert matches[..i + 1] == matches[..i] + [moduleName];
      if !IsReserved(Python, moduleName) {
        var moduleFile := ModuleFile(moduleName);
        if moduleFile in dir.files && moduleFile !in result' {
          result' := result' + {moduleFile};
          filesToCheck' := filesToCheck' + [moduleFile];
        }
      }
    }
    assert matches[..|matches|] == matches;
  }

  /**
    One visit of the worklist loop to an existing file: an unreadable file
    adds nothing (its exception is swallowed), a readable one adds what it
    refers to.
   */
  method ScanFile(dir: Folder, current: string, result: set<string>, filesToCheck: seq<string>)
      returns (result': set<string>, filesToCheck': seq<string>)
    requires current in dir.files
    ensures result' == result + Successors(dir, current, Python)
    ensures forall f :: f in filesToCheck' <==> f in filesToCheck || f in result' - result
  {
    match dir.files[current]
    case None =>
      result', filesToCheck' := result, filesToCheck;
    case Some(content) =>
      result', filesToCheck' := AddReferencedModules(dir, Scan(content), result, filesToCheck);
  }

  /**
    `detect_nested_dependencies`: a worklist over the files found so far.
    Each file is taken off the front, skipped when already checked, and
    otherwise scanned; every existing, not yet known `<name>.v` it refers to
    joins both the result and the back of the worklist. A missing or
    unreadable file is skipped. The caller's set is updated in place by the
    source; here the grown set is returned.

    `scanned` lists the existing files whose read was attempted, in order:
    each at most once.
   */
  method DetectNestedDependencies(dir: Folder, dependencies: set<string>)
      returns (result: set<string>, ghost scanned: seq<string>)
    ensures dependencies <= result
    ensures result - dependencies <= dir.files.Keys
    ensures Closed(dir, result, Python)
    ensures forall s :: dependencies <= s && Closed(dir, s, Python) ==> result <= s
    ensures Distinct(scanned)
    ensures forall f :: f in scanned <==> f in result && f in dir.files
  {
    result := dependencies;
    var filesToCheck := Enumerate(dependencies);
    var checkedFiles: set<string> := {};
    scanned := [];
    ghost var universe := dependencies + dir.files.Keys;
    WorklistStart(dir, dependencies, universe, filesToCheck);
    while filesToCheck != []
      invariant Worklist(dir, dependencies, universe, result, filesToCheck, checkedFiles, scanned)
      decreases |universe - checkedFiles|, |filesToCheck|
    {
      ghost var todo := filesToCheck;
      var current := filesToCheck[0];
      filesToCheck := filesToCheck[1..];
      if current in checkedFiles {
        WorklistSkip(dir, dependencies, universe, result, todo, checkedFiles, scanned);
        continue;
      }
      WorklistHead(dir, dependencies, universe, result, todo, checkedFiles, scanned);
      UncheckedShrinks(universe, checkedFiles, current);
      if current !in dir.files {
        WorklistMissing(dir, dependencies, universe, result, todo, checkedFiles, scanned);
        checkedFiles := checkedFiles + {current};
        continue;
      }
      ghost var before := result;
      result, filesToCheck := ScanFile(dir, current, result, filesToCheck);
      WorklistVisit(dir, dependencies, universe, before, todo, checkedFiles, scanned, result, filesToCheck);
      checkedFiles := checkedFiles + {current};
      scanned := scanned + [current];
    }
    WorklistDone(dir, dependencies, universe, result, checkedFiles, scanned);
  }

  /**
    The loop invariant of `detect_nested_dependencies`: the result holds the
    starting files and lies within the universe and within every closure;
    every member is checked or still queued; what a checked file refers to
    is known; the scanned files are the checked ones that exist, each once.
   */
  ghost predicate Worklist(dir: Folder, deps: set<string>, universe: set<string>, result: set<string>,
                           todo: seq<string>, checked: set<string>, scanned: seq<string>)
  {
    && deps <= result <= universe
    && (forall f :: f in todo ==> f in result)
    && checked <= result
    && (forall f :: f in result ==> f in checked || f in todo)
    && (forall f :: f in checked ==> Successors(dir, f, Python) <= result)
    && WithinEveryClosure(dir, deps, result)
    && Distinct(scanned)
    && (forall f :: f in scanned <==> f in checked && f in dir.files)
  }

  lemma WorklistStart(dir: Folder, deps: set<string>, universe: set<string>, todo: seq<string>)
    requires universe == deps + dir.files.Keys
    requires forall x :: x in todo <==> x in deps
    ensures Worklist(dir, deps, universe, deps, todo, {}, [])
  {
  }

  lemma WorklistHead(dir: Folder, deps: set<string>, universe: set<string>, result: set<string>,
                     todo: seq<string>, checked: set<string>, scanned: seq<string>)
    requires Worklist(dir, deps, universe, result, todo, checked, scanned) && todo != []
    ensures todo[0] in result && todo[0] in universe
  {
  }

  /** A file already checked is dropped from the front of the worklist. */
  lemma WorklistSkip(dir: Folder, deps: set<string>, universe: set<string>, result: set<string>,
                     todo: seq<string>, checked: set<string>, scanned: seq<string>)
    requires Worklist(dir, deps, universe, result, todo, checked, scanned)
    requires todo != [] && todo[0] in checked
    ensures Worklist(dir, deps, universe, result, todo[1..], checked, scanned)
  {
    forall f | f in result ensures f in checked || f in todo[1..] {
      if f !in checked {
        var i :| 0 <= i < |todo| && todo[i] == f;
        assert i > 0 && todo[1..][i - 1] == f;
      }
    }
  }

  /** A file that does not exist is checked and adds nothing. */
  lemma WorklistMissing(dir: Folder, deps: set<string>, universe: set<string>, result: set<string>,
                        todo: seq<string>, checked: set<string>, scanned: seq<string>)
    requires Worklist(dir, deps, universe, result, todo, checked, scanned)
    requires todo != [] && todo[0] !in dir.files
    ensures Worklist(dir, deps, universe, result, todo[1..], checked + {todo[0]}, scanned)
  {
    assert Successors(dir, todo[0], Python) == {};
    forall f | f in result ensures f in checked + {todo[0]} || f in todo[1..] {
      if f !in checked && f != todo[0] {
        var i :| 0 <= i < |todo| && todo[i] == f;
        assert i > 0 && todo[1..][i - 1] == f;
      }
    }
  }

  /** An existing file is checked, scanned, and what it refers to joins the result and the worklist. */
  lemma WorklistVisit(dir: Folder, deps: set<string>, universe: set<string>, result: set<string>,
                      todo: seq<string>, checked: set<string>, scanned: seq<string>,
                      result': set<string>, todo': seq<string>)
    requires Worklist(dir, deps, universe, result, todo, checked, scanned)
    requires todo != [] && todo[0] !in checked && todo[0] in dir.files
    requires universe == deps + dir.files.Keys
    requires result' == result + Successors(dir, todo[0], Python)
    requires forall f :: f in todo' <==> f in todo[1..] || f in result' - result
    ensures Worklist(dir, deps, universe, result', todo', checked + {todo[0]}, scanned + [todo[0]])
  {
    var x := todo[0];
    WithinEveryClosureStep(dir, deps, result, x);
    DistinctAppend(scanned, x);
    forall f | f in result' ensures f in checked + {x} || f in todo' {
      if f in result && f !in checked && f != x {
        var i :| 0 <= i < |todo| && todo[i] == f;
        assert i > 0 && todo[1..][i - 1] == f;
      }
    }
  }

  /** An empty worklist leaves the least closed superset. */
  lemma WorklistDone(dir: Folder, deps: set<string>, universe: set<string>, result: set<string>,
                     checked: set<string>, scanned: seq<string>)
    requires Worklist(dir, deps, universe, result, [], checked, scanned)
    requires universe == deps + dir.files.Keys
    ensures result - deps <= dir.files.Keys
    ensures Closed(dir, result, Python)
    ensures forall s :: deps <= s && Closed(dir, s, Python) ==> result <= s
    ensures forall f :: f in scanned <==> f in result && f in dir.files
  {
  }

  /** `r` lies inside every closed superset of `init`: nothing was added without cause. */
  ghost predicate WithinEveryClosure(dir: Folder, init: set<string>, r: set<string>) {
    forall s :: init <= s && Closed(dir, s, Python) ==> r <= s
  }

  /** Adding what a member refers to keeps the set inside every closure. */
  lemma WithinEveryClosureStep(dir: Folder, init: set<string>, r: set<string>, x: string)
    requires WithinEveryClosure(dir, init, r) && x in r
    ensures WithinEveryClosure(dir, init, r + Successors(dir, x, Python))
  {
    forall s | init <= s && Closed(dir, s, Python) ensures r + Successors(dir, x, Python) <= s {
      assert r <= s && x in s;
    }
  }

  /** Checking one more file of the universe leaves fewer unchecked. */
  lemma UncheckedShrinks(universe: set<string>, checked: set<string>, x: string)
    requires x in universe && x !in checked
    ensures |universe - (checked + {x})| < |universe - checked|
  {
    assert universe - (checked + {x}) == (universe - checked) - {x};
  }

  lemma DistinctAppend(s: seq<string>, x: string)
    requires Distinct(s) && x !in s
    ensures Distinct(s + [x])
  {
  }

  /** The least closed superset is unique: resolving twice gives the same set. */
  lemma ClosureUnique(dir: Folder, init: set<string>, r1: set<string>, r2: set<string>, d: Dialect)
    requires IsClosureOf(dir, init, r1, d) && IsClosureOf(dir, init, r2, d)
    ensures r1 == r2
  {
    assert r1 <= r2 && r2 <= r1;
  }

  // ---------------------------------------------------------------------------
  // The pipeline, as functions of the oracle outcomes.

  /** How a stage ended: it returned a flag, or an exception escaped it. */
  datatype Status = Returned(ok: bool) | Raised(error: string)

  /** What a stage wrote to the log, how it ended and the directory after it. */
  datatype Step = Step(log: seq<LogEvent>, status: Status, files: Files)

  /** What a whole run wrote to the log and the directory it left. */
  datatype Run = Run(log: seq<LogEvent>, files: Files)

  /** `run_iverilog`: a missing compiler is reported; any other launch error escapes. */
  function CompileStep(name: string, tb: string, deps: seq<string>, files: Files, r: ToolResult): Step {
    var echo := [LogEvent(Running(CompileCommand(name, tb, deps)), Info)];
    match r
    case LaunchFailed(NotFound, _) => Step(echo + [LogEvent(ToolMissing("iverilog"), Error)], Returned(false), files)
    case LaunchFailed(OtherOsError, e) => Step(echo, Raised(e), files)
    case Exited(code, out, err, after) =>
      if code != 0 then
        Step(echo + [LogEvent(CompileFailed(err), Error)], Returned(false), after)
      else
        Step(echo + [LogEvent(CompileSucceeded, Success)] + (if out != "" then [LogEvent(ToolOutput(out), Plain)] else []),
             Returned(true), after)
  }

  /** `run_vvp`: the output is shown whatever the status; success is status 0. */
  function SimulateStep(name: string, files: Files, r: ToolResult): Step {
    var echo := [LogEvent(Running(SimulateCommand(name)), Info)];
    match r
    case LaunchFailed(NotFound, _) => Step(echo + [LogEvent(ToolMissing("vvp"), Error)], Returned(false), files)
    case LaunchFailed(OtherOsError, e) => Step(echo, Raised(e), files)
    case Exited(code, out, err, after) =>
      Step(echo + [LogEvent(SimulationResults, Header), LogEvent(ToolOutput(out), Plain)]
                + (if err != "" then [LogEvent(SimulationWarnings(err), Warning)] else []),
           Returned(code == 0), after)
  }

  /** `run_gtkwave`: no viewer without `<name>.vcd`; every launch error is caught. */
  function ViewStep(name: string, files: Files, s: SpawnResult): Step {
    if VcdFile(name) !in files then
      Step([LogEvent(VcdMissing(VcdFile(name)), Warning)], Returned(false), files)
    else
      var echo := [LogEvent(Running(ViewCommand(name)), Info)];
      match s
      case Spawned(pid) => Step(echo + [LogEvent(ViewerLaunched(Some(pid)), Success)], Returned(true), files)
      case SpawnFailed(NotFound, _) => Step(echo + [LogEvent(ToolMissing("gtkwave"), Error)], Returned(false), files)
      case SpawnFailed(OtherOsError, e) => Step(echo + [LogEvent(ViewerFailed(e), Error)], Returned(false), files)
  }

  /** `cleanup_file`: remove the artifact if it exists; a failed removal is only logged. */
  function CleanupStep(name: string, files: Files, rm: RemoveResult): Step {
    if name !in files then Step([], Returned(true), files)
    else
      match rm
      case RemoveOk => Step([LogEvent(ArtifactRemoved(name), Info)], Returned(true), files - {name})
      case RemoveError(e) => Step([LogEvent(RemoveFailed(e), Error)], Returned(false), files)
  }

  function RunHeader(name: string, tb: string, deps: seq<string>, path: string): seq<LogEvent> {
    [ LogEvent(Rule, Header), LogEvent(RunStarted(name), Header), LogEvent(Rule, Header),
      LogEvent(WorkingDirectory(path), Info), LogEvent(TestbenchIs(tb), Info), LogEvent(DependenciesAre(deps), Info) ]
  }

  function RunFooter(name: string): seq<LogEvent> {
    [LogEvent(Rule, Header), LogEvent(RunFinished(name), Success), LogEvent(Rule, Header)]
  }

  /** The simulation stage that follows a compiler that returned. */
  function SimulationAfter(name: string, c: Step, env: Env): Step {
    if c.status == Returned(true) then SimulateStep(name, c.files, env.simulator) else Step([], Returned(false), c.files)
  }

  /** What follows a simulation that returned: the viewer when due, then clean-up and the closing banner. */
  function Finish(name: string, s: Step, viewerOn: bool, env: Env): Run {
    var v := if s.status == Returned(true) && viewerOn then ViewStep(name, s.files, env.viewer).log else [];
    var k := CleanupStep(name, s.files, env.removal);
    Run(v + k.log + RunFooter(name), k.files)
  }

  /** What follows a compiler that returned: the simulator only after success (`and` short-circuits). */
  function AfterCompile(name: string, c: Step, viewerOn: bool, env: Env): Run {
    var s := SimulationAfter(name, c, env);
    if s.status.Raised? then
      Run(s.log + [LogEvent(UnexpectedError(s.status.error), Error)], s.files)
    else
      var f := Finish(name, s, viewerOn, env);
      Run(s.log + f.log, f.files)
  }

  /**
    `run_verilog_thread`: compile; simulate only after a successful compile;
    view only after a successful simulation and when the option is on; then
    clean up and close the banner. An exception escaping a stage ends the run
    with one error message and skips the clean-up.
   */
  function PipelineRun(tb: string, deps: seq<string>, path: string, files: Files, viewerOn: bool, env: Env): Run {
    var name := ArtifactName(tb);
    var head := RunHeader(name, tb, deps, path);
    var c := CompileStep(name, tb, deps, files, env.compiler);
    if c.status.Raised? then
      Run(head + c.log + [LogEvent(UnexpectedError(c.status.error), Error)], c.files)
    else
      var a := AfterCompile(name, c, viewerOn, env);
      Run(head + c.log + a.log, a.files)
  }

  // ---------------------------------------------------------------------------
  // What the pipeline guarantees.

  /** An exception other than a missing program escapes the compiler or the simulator. */
  predicate Raises(env: Env) {
    || (env.compiler.LaunchFailed? && env.compiler.kind == OtherOsError)
    || (Succeeded(env.compiler) && env.simulator.LaunchFailed? && env.simulator.kind == OtherOsError)
  }

  /** The directory after the stages that ran, before clean-up. */
  function StageFiles(files: Files, env: Env): Files {
    var afterCompile := FilesAfter(files, env.compiler);
    if Succeeded(env.compiler) then FilesAfter(afterCompile, env.simulator) else afterCompile
  }

  /** How the compile stage ended, and the folder it left. */
  lemma CompileOutcome(name: string, tb: string, deps: seq<string>, files: Files, r: ToolResult)
    ensures var c := CompileStep(name, tb, deps, files, r);
      && (c.status.Raised? <==> r.LaunchFailed? && r.kind == OtherOsError)
      && (c.status.Returned? ==> c.status.ok == Succeeded(r))
      && c.files == FilesAfter(files, r)
  {
  }

  /** A line of the opening banner. */
  predicate HeaderMessage(m: Message) {
    m.Rule? || m.RunStarted? || m.WorkingDirectory? || m.TestbenchIs? || m.DependenciesAre?
  }

  /**
    Past the opening banner, a run's log is the compile stage's messages
    followed, when the compiler returned, by everything after it.
   */
  lemma RunTail(tb: string, deps: seq<string>, path: string, files: Files, viewerOn: bool, env: Env, e: LogEvent)
    requires !HeaderMessage(e.msg) && !e.msg.UnexpectedError?
    ensures var name := ArtifactName(tb);
      var c := CompileStep(name, tb, deps, files, env.compiler);
      var run := PipelineRun(tb, deps, path, files, viewerOn, env);
      && (e in run.log <==> e in c.log || (c.status.Returned? && e in AfterCompile(name, c, viewerOn, env).log))
      && (c.status.Returned? ==> run.files == AfterCompile(name, c, viewerOn, env).files)
  {
    var name := ArtifactName(tb);
    assert e !in RunHeader(name, tb, deps, path);
  }

  lemma CompileLogShape(name: string, tb: string, deps: seq<string>, files: Files, r: ToolResult)
    ensures var c := CompileStep(name, tb, deps, files, r);
      && |c.log| >= 1 && c.log[0] == LogEvent(Running(CompileCommand(name, tb, deps)), Info)
      && forall e :: e in c.log[1..] ==> !e.msg.Running?
  {
  }

  /** The first command a run launches is exactly the compile command. */
  lemma FirstCommandIsCompile(tb: string, deps: seq<string>, path: string, files: Files, viewerOn: bool, env: Env)
    ensures var run := PipelineRun(tb, deps, path, files, viewerOn, env);
      && |run.log| > 6
      && run.log[6] == LogEvent(Running(CompileCommand(ArtifactName(tb), tb, deps)), Info)
      && forall i :: 0 <= i < 6 ==> !run.log[i].msg.Running?
  {
    var name := ArtifactName(tb);
    var c := CompileStep(name, tb, deps, files, env.compiler);
    CompileLogShape(name, tb, deps, files, env.compiler);
    assert (RunHeader(name, tb, deps, path) + c.log)[6] == c.log[0];
  }

  /** The simulator is launched exactly when the compiler succeeded. */
  lemma SimulateOnlyAfterCompile(tb: string, deps: seq<string>, path: string, files: Files, viewerOn: bool, env: Env)
    ensures LogEvent(Running(SimulateCommand(ArtifactName(tb))), Info) in PipelineRun(tb, deps, path, files, viewerOn, env).log
        <==> Succeeded(env.compiler)
  {
    var name := ArtifactName(tb);
    LaunchedCommands(tb, deps, path, files, viewerOn, env, SimulateCommand(name));
    assert SimulateCommand(name)[0] != CompileCommand(name, tb, deps)[0];
    assert SimulateCommand(name)[0] != ViewCommand(name)[0];
  }

  lemma CompileRunning(name: string, tb: string, deps: seq<string>, files: Files, r: ToolResult, argv: seq<string>)
    ensures LogEvent(Running(argv), Info) in CompileStep(name, tb, deps, files, r).log <==> argv == CompileCommand(name, tb, deps)
  {
  }

  /** A message the compiler or simulator stage writes. */
  predicate ToolMessage(m: Message) {
    || m.Running? || m.CompileFailed? || m.CompileSucceeded? || m.ToolOutput?
    || m.ToolMissing? || m.SimulationResults? || m.SimulationWarnings?
  }

  lemma CompileMessages(name: string, tb: string, deps: seq<string>, files: Files, r: ToolResult)
    ensures forall e :: e in CompileStep(name, tb, deps, files, r).log ==> ToolMessage(e.msg)
  {
  }

  lemma SimulateMessages(name: string, files: Files, r: ToolResult, argv: seq<string>)
    ensures forall e :: e in SimulateStep(name, files, r).log ==> ToolMessage(e.msg)
    ensures LogEvent(Running(argv), Info) in SimulateStep(name, files, r).log <==> argv == SimulateCommand(name)
  {
  }

  lemma ViewMessages(name: string, files: Files, sp: SpawnResult, argv: seq<string>)
    ensures LogEvent(Running(argv), Info) in ViewStep(name, files, sp).log <==> VcdFile(name) in files && argv == ViewCommand(name)
    ensures LogEvent(VcdMissing(VcdFile(name)), Warning) in ViewStep(name, files, sp).log <==> VcdFile(name) !in files
    ensures forall e :: e in ViewStep(name, files, sp).log ==> !e.msg.ArtifactRemoved?
  {
  }

  /** The closing stages' viewer: launched when due and `<name>.vcd` exists, otherwise a warning. */
  lemma FinishViewer(name: string, s: Step, viewerOn: bool, env: Env, argv: seq<string>)
    requires s.status.Returned?
    ensures var f := Finish(name, s, viewerOn, env);
      && (LogEvent(Running(argv), Info) in f.log
          <==> s.status.ok && viewerOn && VcdFile(name) in s.files && argv == ViewCommand(name))
      && (LogEvent(VcdMissing(VcdFile(name)), Warning) in f.log
          <==> s.status.ok && viewerOn && VcdFile(name) !in s.files)
  {
    var f := Finish(name, s, viewerOn, env);
    var tail := CleanupStep(name, s.files, env.removal).log + RunFooter(name);
    assert forall e :: e in tail ==> e.msg.ArtifactRemoved? || e.msg.RemoveFailed? || e.msg.Rule? || e.msg.RunFinished?;
    if s.status == Returned(true) && viewerOn {
      ViewMessages(name, s.files, env.viewer, argv);
      assert f.log == ViewStep(name, s.files, env.viewer).log + tail;
    } else {
      assert f.log == tail;
    }
  }

  /** The closing stages' clean-up: the artifact removed when it exists, then the banner last. */
  lemma FinishCleanup(name: string, s: Step, viewerOn: bool, env: Env)
    requires s.status.Returned?
    ensures var f := Finish(name, s, viewerOn, env);
      && (LogEvent(ArtifactRemoved(name), Info) in f.log <==> name in s.files && env.removal.RemoveOk?)
      && f.files == (if name in s.files && env.removal.RemoveOk? then s.files - {name} else s.files)
      && |f.log| >= 3 && f.log[|f.log| - 2] == LogEvent(RunFinished(name), Success)
  {
    var f := Finish(name, s, viewerOn, env);
    var tail := CleanupStep(name, s.files, env.removal).log + RunFooter(name);
    assert tail[|tail| - 2] == LogEvent(RunFinished(name), Success);
    if s.status == Returned(true) && viewerOn {
      var v := ViewStep(name, s.files, env.viewer).log;
      ViewMessages(name, s.files, env.viewer, []);
      assert f.log == v + tail;
      assert (v + tail)[|v + tail| - 2] == tail[|tail| - 2];
    } else {
      assert f.log == tail;
    }
  }

  lemma SimulationAfterFacts(name: string, c: Step, env: Env, argv: seq<string>)
    requires c.status.Returned?
    requires !(c.status.ok && env.simulator.LaunchFailed? && env.simulator.kind == OtherOsError)
    ensures var s := SimulationAfter(name, c, env);
      && s.status == Returned(c.status.ok && Succeeded(env.simulator))
      && s.files == (if c.status.ok then FilesAfter(c.files, env.simulator) else c.files)
      && (forall e :: e in s.log ==> ToolMessage(e.msg))
      && (LogEvent(Running(argv), Info) in s.log <==> c.status.ok && argv == SimulateCommand(name))
  {
    SimulateMessages(name, c.files, env.simulator, argv);
  }

  /** After a compiler that returned: the simulator only on success, then the viewer gate. */
  lemma AfterCompileViewer(name: string, c: Step, viewerOn: bool, env: Env, argv: seq<string>)
    requires c.status.Returned?
    requires !(c.status.ok && env.simulator.LaunchFailed? && env.simulator.kind == OtherOsError)
    ensures var a := AfterCompile(name, c, viewerOn, env);
      var simOk := c.status.ok && Succeeded(env.simulator);
      var sFiles := if c.status.ok then FilesAfter(c.files, env.simulator) else c.files;
      && (LogEvent(Running(argv), Info) in a.log
          <==> || (c.status.ok && argv == SimulateCommand(name))
               || (simOk && viewerOn && VcdFile(name) in sFiles && argv == ViewCommand(name)))
      && (LogEvent(VcdMissing(VcdFile(name)), Warning) in a.log <==> simOk && viewerOn && VcdFile(name) !in sFiles)
  {
    var s := SimulationAfter(name, c, env);
    SimulationAfterFacts(name, c, env, argv);
    FinishViewer(name, s, viewerOn, env, argv);
    assert AfterCompile(name, c, viewerOn, env).log == s.log + Finish(name, s, viewerOn, env).log;
    assert LogEvent(VcdMissing(VcdFile(name)), Warning) !in s.log;
  }

  /** After a compiler that returned, and a simulator that did not raise, the log is the simulation's and then the closing stages'. */
  lemma AfterCompileSplit(name: string, c: Step, viewerOn: bool, env: Env)
    requires c.status.Returned?
    requires !(c.status.ok && env.simulator.LaunchFailed? && env.simulator.kind == OtherOsError)
    ensures var s := SimulationAfter(name, c, env);
      var f := Finish(name, s, viewerOn, env);
      && s.status.Returned?
      && AfterCompile(name, c, viewerOn, env) == Run(s.log + f.log, f.files)
  {
    SimulationAfterFacts(name, c, env, []);
  }

  /** After a compiler that returned and a simulator that did not raise: the artifact removed when it exists. */
  lemma AfterCompileRemoval(name: string, c: Step, viewerOn: bool, env: Env)
    requires c.status.Returned?
    requires !(c.status.ok && env.simulator.LaunchFailed? && env.simulator.kind == OtherOsError)
    ensures var a := AfterCompile(name, c, viewerOn, env);
      var sFiles := if c.status.ok then FilesAfter(c.files, env.simulator) else c.files;
      && (LogEvent(ArtifactRemoved(name), Info) in a.log <==> name in sFiles && env.removal.RemoveOk?)
      && a.files == (if name in sFiles && env.removal.RemoveOk? then sFiles - {name} else sFiles)
  {
    var s := SimulationAfter(name, c, env);
    SimulationAfterFacts(name, c, env, []);
    AfterCompileSplit(name, c, viewerOn, env);
    FinishCleanup(name, s, viewerOn, env);
    assert LogEvent(ArtifactRemoved(name), Info) !in s.log;
  }

  /** After a compiler that returned and a simulator that did not raise: the banner closes the run. */
  lemma AfterCompileFooter(name: string, c: Step, viewerOn: bool, env: Env)
    requires c.status.Returned?
    requires !(c.status.ok && env.simulator.LaunchFailed? && env.simulator.kind == OtherOsError)
    ensures var a := AfterCompile(name, c, viewerOn, env);
      |a.log| >= 3 && a.log[|a.log| - 2] == LogEvent(RunFinished(name), Success)
  {
    var s := SimulationAfter(name, c, env);
    AfterCompileSplit(name, c, viewerOn, env);
    var f := Finish(name, s, viewerOn, env);
    FinishCleanup(name, s, viewerOn, env);
    assert (s.log + f.log)[|s.log + f.log| - 2] == f.log[|f.log| - 2];
  }

  /**
    The commands a run launches: always the compiler; the simulator exactly
    when the compiler succeeded; the viewer exactly when both succeeded, the
    option is on and the simulation left `<name>.vcd` behind.
   */
  lemma LaunchedCommands(tb: string, deps: seq<string>, path: string, files: Files, viewerOn: bool, env: Env, argv: seq<string>)
    ensures var name := ArtifactName(tb);
      LogEvent(Running(argv), Info) in PipelineRun(tb, deps, path, files, viewerOn, env).log
      <==> || argv == CompileCommand(name, tb, deps)
           || (Succeeded(env.compiler) && argv == SimulateCommand(name))
           || (&& Succeeded(env.compiler) && Succeeded(env.simulator) && viewerOn
               && VcdFile(name) in env.simulator.after && argv == ViewCommand(name))
  {
    var name := ArtifactName(tb);
    var c := CompileStep(name, tb, deps, files, env.compiler);
    CompileRunning(name, tb, deps, files, env.compiler, argv);
    CompileOutcome(name, tb, deps, files, env.compiler);
    RunTail(tb, deps, path, files, viewerOn, env, LogEvent(Running(argv), Info));
    if c.status.Returned? {
      if c.status.ok && env.simulator.LaunchFailed? && env.simulator.kind == OtherOsError {
        SimulateMessages(name, c.files, env.simulator, argv);
      } else {
        AfterCompileViewer(name, c, viewerOn, env, argv);
        assert Succeeded(env.simulator) ==> FilesAfter(c.files, env.simulator) == env.simulator.after;
      }
    }
  }

  /** The viewer is attempted only after a successful compile and simulation, with the option on. */
  lemma ViewerGate(tb: string, deps: seq<string>, path: string, files: Files, viewerOn: bool, env: Env)
    ensures var name := ArtifactName(tb);
      LogEvent(Running(ViewCommand(name)), Info) in PipelineRun(tb, deps, path, files, viewerOn, env).log
      <==> Succeeded(env.compiler) && Succeeded(env.simulator) && viewerOn && VcdFile(name) in env.simulator.after
  {
    var name := ArtifactName(tb);
    LaunchedCommands(tb, deps, path, files, viewerOn, env, ViewCommand(name));
    assert ViewCommand(name)[0] != CompileCommand(name, tb, deps)[0];
    assert ViewCommand(name)[0] != SimulateCommand(name)[0];
  }

  /** Where the viewer would run but `<name>.vcd` is missing, a warning is logged instead. */
  lemma VcdMissingWarned(tb: string, deps: seq<string>, path: string, files: Files, viewerOn: bool, env: Env)
    ensures var name := ArtifactName(tb);
      LogEvent(VcdMissing(VcdFile(name)), Warning) in PipelineRun(tb, deps, path, files, viewerOn, env).log
      <==> Succeeded(env.compiler) && Succeeded(env.simulator) && viewerOn && VcdFile(name) !in env.simulator.after
  {
    var name := ArtifactName(tb);
    var c := CompileStep(name, tb, deps, files, env.compiler);
    CompileOutcome(name, tb, deps, files, env.compiler);
    CompileMessages(name, tb, deps, files, env.compiler);
    var e := LogEvent(VcdMissing(VcdFile(name)), Warning);
    RunTail(tb, deps, path, files, viewerOn, env, e);
    assert e !in c.log;
    if c.status.Returned? {
      if c.status.ok && env.simulator.LaunchFailed? && env.simulator.kind == OtherOsError {
        SimulateMessages(name, c.files, env.simulator, []);
        assert e !in AfterCompile(name, c, viewerOn, env).log;
      } else {
        AfterCompileViewer(name, c, viewerOn, env, []);
        assert Succeeded(env.simulator) ==> FilesAfter(c.files, env.simulator) == env.simulator.after;
      }
    }
  }

  /**
    Unless an exception escapes, the run always reaches clean-up: the
    artifact is removed exactly when it exists and the removal succeeds, and
    nothing else in the directory changes.
   */
  lemma CleanupAfterEveryOutcome(tb: string, deps: seq<string>, path: string, files: Files, viewerOn: bool, env: Env)
    requires !Raises(env)
    ensures var name := ArtifactName(tb);
      var before := StageFiles(files, env);
      var run := PipelineRun(tb, deps, path, files, viewerOn, env);
      && run.files == (if name in before && env.removal.RemoveOk? then before - {name} else before)
      && (LogEvent(ArtifactRemoved(name), Info) in run.log <==> name in before && env.removal.RemoveOk?)
  {
    var name := ArtifactName(tb);
    var c := CompileStep(name, tb, deps, files, env.compiler);
    CompileMessages(name, tb, deps, files, env.compiler);
    CompileOutcome(name, tb, deps, files, env.compiler);
    RunTail(tb, deps, path, files, viewerOn, env, LogEvent(ArtifactRemoved(name), Info));
    AfterCompileRemoval(name, c, viewerOn, env);
  }

  /** Unless an exception escapes, the closing banner announces the finished run. */
  lemma RunCompletes(tb: string, deps: seq<string>, path: string, files: Files, viewerOn: bool, env: Env)
    requires !Raises(env)
    ensures var run := PipelineRun(tb, deps, path, files, viewerOn, env);
      |run.log| >= 2 && run.log[|run.log| - 2] == LogEvent(RunFinished(ArtifactName(tb)), Success)
  {
    var name := ArtifactName(tb);
    var c := CompileStep(name, tb, deps, files, env.compiler);
    AfterCompileFooter(name, c, viewerOn, env);
    var a := AfterCompile(name, c, viewerOn, env);
    var head := RunHeader(name, tb, deps, path) + c.log;
    assert (head + a.log)[|head + a.log| - 2] == a.log[|a.log| - 2];
  }

  /**
    An exception escaping the compiler or the simulator ends the run with an
    error message: no clean-up, no closing banner, the directory as the
    tools left it.
   */
  lemma ExceptionSkipsCleanup(tb: string, deps: seq<string>, path: string, files: Files, viewerOn: bool, env: Env)
    requires Raises(env)
    ensures var name := ArtifactName(tb);
      var run := PipelineRun(tb, deps, path, files, viewerOn, env);
      && run.files == StageFiles(files, env)
      && run.log[|run.log| - 1].msg.UnexpectedError?
      && LogEvent(ArtifactRemoved(name), Info) !in run.log
      && LogEvent(RunFinished(name), Success) !in run.log
  {
    if env.compiler.LaunchFailed? {
      CompilerRaised(tb, deps, path, files, viewerOn, env);
    } else {
      SimulatorRaised(tb, deps, path, files, viewerOn, env);
    }
  }

  lemma CompilerRaised(tb: string, deps: seq<string>, path: string, files: Files, viewerOn: bool, env: Env)
    requires env.compiler.LaunchFailed? && env.compiler.kind == OtherOsError
    ensures var name := ArtifactName(tb);
      var run := PipelineRun(tb, deps, path, files, viewerOn, env);
      && run.files == files
      && run.log[|run.log| - 1].msg.UnexpectedError?
      && LogEvent(ArtifactRemoved(name), Info) !in run.log
      && LogEvent(RunFinished(name), Success) !in run.log
  {
  }

  lemma SimulatorRaised(tb: string, deps: seq<string>, path: string, files: Files, viewerOn: bool, env: Env)
    requires Succeeded(env.compiler) && env.simulator.LaunchFailed? && env.simulator.kind == OtherOsError
    ensures var name := ArtifactName(tb);
      var run := PipelineRun(tb, deps, path, files, viewerOn, env);
      && run.files == env.compiler.after
      && run.log[|run.log| - 1].msg.UnexpectedError?
      && LogEvent(ArtifactRemoved(name), Info) !in run.log
      && LogEvent(RunFinished(name), Success) !in run.log
  {
  }


  // ---------------------------------------------------------------------------
  // The runner object.

  class VerilogRunner {
    /** The folder whose files are listed; every file name below is relative to it. */
    var selectedDirectory: string
    /** The testbench picked in the testbench list, if any. */
    var selectedTestbench: Option<string>
    /** The dependency list: parallel names and check flags. */
    var depFiles: seq<string>
    var depVars: seq<bool>
    /** The "open the waveform viewer" and "detect dependencies" options. */
    var gtkwaveEnabled: bool
    var autoDetectEnabled: bool
    /** The output pane, as the messages written to it. */
    var log: seq<LogEvent>

    ghost predicate Valid()
      reads this
    {
      |depFiles| == |depVars|
    }

    /**
      The dependency list shows `dir`'s dependency files in sorted order, and
      an entry is checked exactly when it was auto-detected.
     */
    ghost predicate ListsDependencies(dir: Folder, auto: Option<set<string>>)
      reads this
    {
      && Valid()
      && StrictlySorted(depFiles)
      && (forall n :: n in depFiles <==> n in Listing(dir) && IsDependencyName(n))
      && (forall i :: 0 <= i < |depFiles| ==> depVars[i] == (auto.Some? && depFiles[i] in auto.value))
    }

    /**
      Both options start enabled, then the working directory is refreshed.
      Whether `cwd` exists and the exception refreshing may raise are
      supplied by the caller.
     */
    constructor (cwd: string, cwdExists: bool, failure: Option<string>)
      ensures Valid()
      ensures selectedDirectory == cwd && selectedTestbench == None
      ensures depFiles == [] && depVars == []
      ensures gtkwaveEnabled && autoDetectEnabled
      ensures !cwdExists ==> log == [LogEvent(DirectoryMissing, Error)]
      ensures cwdExists && failure.Some? ==> log == [LogEvent(RefreshFailed(failure.value), Error)]
      ensures cwdExists && failure.None? ==> log == [LogEvent(DirectoryRefreshed(cwd), Success)]
    {
      selectedDirectory := cwd;
      selectedTestbench := None;
      depFiles, depVars := [], [];
      gtkwaveEnabled, autoDetectEnabled := true, true;
      log := [];
      new;
      RefreshFiles(cwd, cwdExists, failure);
    }

    /**
      `refresh_files`: a missing folder is reported and nothing else happens;
      an exception (from changing into the folder or building the folder
      tree) is reported and leaves the lists as they were; otherwise the
      folder becomes the listed one, the testbench list is rebuilt (which
      drops its selection), the dependency list is cleared and the refresh
      is reported.
     */
    method RefreshFiles(directory: string, found: bool, failure: Option<string>)
      modifies this`selectedDirectory, this`selectedTestbench, this`depFiles, this`depVars, this`log
      ensures !found ==> log == old(log) + [LogEvent(DirectoryMissing, Error)]
      ensures found && failure.Some? ==> log == old(log) + [LogEvent(RefreshFailed(failure.value), Error)]
      ensures found && failure.None? ==> log == old(log) + [LogEvent(DirectoryRefreshed(directory), Success)]
      ensures found && failure.None? ==> selectedDirectory == directory && selectedTestbench == None
      ensures found && failure.None? ==> depFiles == [] && depVars == []
      ensures !found || failure.Some? ==> selectedDirectory == old(selectedDirectory) && selectedTestbench == old(selectedTestbench)
      ensures !found || failure.Some? ==> depFiles == old(depFiles) && depVars == old(depVars)
    {
      if !found {
        LogOutput(LogEvent(DirectoryMissing, Error));
      } else if failure.Some? {
        LogOutput(LogEvent(RefreshFailed(failure.value), Error));
      } else {
        selectedDirectory := directory;
        selectedTestbench := None;
        ClearDependencyList();
        LogOutput(LogEvent(DirectoryRefreshed(directory), Success));
      }
    }

    /** `log_output`: append one message to the output pane. */
    method LogOutput(e: LogEvent)
      modifies this`log
      ensures log == old(log) + [e]
    {
      log := log + [e];
    }

    /** `clear_dependency_list`. */
    method ClearDependencyList()
      modifies this`depFiles, this`depVars
      ensures depFiles == [] && depVars == []
    {
      depVars := [];
      depFiles := [];
    }

    /**
      `update_dependency_list`: rebuild the list from the folder's `*.v`
      files that are not testbenches, sorted, checking the auto-detected ones.
      `None` (no detection) and an empty detection both leave all unchecked.
     */
    method UpdateDependencyList(dir: Folder, auto: Option<set<string>>)
      modifies this`depFiles, this`depVars
      ensures ListsDependencies(dir, auto)
    {
      ClearDependencyList();
      var allFiles := SortedListing(dir, IsDependencyName);
      for i := 0 to |allFiles|
        invariant depFiles == allFiles[..i]
        invariant |depVars| == i
        invariant forall j :: 0 <= j < i ==> depVars[j] == (auto.Some? && allFiles[j] in auto.value)
      {
        var checked := auto.Some? && allFiles[i] in auto.value;
        depVars := depVars + [checked];
        depFiles := depFiles + [allFiles[i]];
      }
      assert allFiles[..|allFiles|] == allFiles;
    }

    /**
      `detect_dependencies`: scan the testbench, add the conventional device
      under test, close the set over nested references, and check the result
      in the dependency list. When the testbench cannot be read, an error is
      logged and the list is rebuilt with nothing checked.
     */
    method DetectDependencies(dir: Folder, tb: string) returns (ghost detected: Option<set<string>>)
      modifies this`depFiles, this`depVars, this`log
      ensures ListsDependencies(dir, detected)
      ensures match Read(dir, tb)
        case None =>
          && detected == None
          && log == old(log) + [LogEvent(DetectionFailed(tb), Error)]
        case Some(text) =>
          && detected.Some?
          && IsClosureOf(dir, DirectDependencies(dir, tb, text, Python), detected.value, Python)
          && detected.value <= dir.files.Keys
          && log == old(log)
    {
      var content := Read(dir, tb);
      if content.None? {
        LogOutput(LogEvent(DetectionFailed(tb), Error));
        UpdateDependencyList(dir, None);
        detected := None;
        return;
      }
      var dependencies := CollectReferences(dir, content.value, Python);
      var mainModule := ConventionName(tb);
      if mainModule in dir.files {
        dependencies := dependencies + {mainModule};
      }
      var resolved;
      ghost var scanned;
      resolved, scanned := DetectNestedDependencies(dir, dependencies);
      UpdateDependencyList(dir, Some(resolved));
      detected := Some(resolved);
    }

    /** `select_all_deps`: every flag set, the names untouched. */
    method SelectAllDeps()
      requires Valid()
      modifies this`depVars
      ensures Valid()
      ensures |depVars| == |old(depVars)| && forall i :: 0 <= i < |depVars| ==> depVars[i]
    {
      for i := 0 to |depVars|
        invariant |depVars| == |old(depVars)|
        invariant forall j :: 0 <= j < i ==> depVars[j]
      {
        depVars := depVars[i := true];
      }
    }

    /** `deselect_all_deps`: every flag cleared, the names untouched. */
    method DeselectAllDeps()
      requires Valid()
      modifies this`depVars
      ensures Valid()
      ensures |depVars| == |old(depVars)| && forall i :: 0 <= i < |depVars| ==> !depVars[i]
    {
      for i := 0 to |depVars|
        invariant |depVars| == |old(depVars)|
        invariant forall j :: 0 <= j < i ==> !depVars[j]
      {
        depVars := depVars[i := false];
      }
    }

    /**
      `get_selected_files`: nothing without a selected testbench; otherwise
      the testbench, the checked names in list order, and the folder.
     */
    function SelectedFiles(): (r: Option<(string, seq<string>, string)>)
      reads this
      requires Valid()
      ensures r.None? <==> selectedTestbench.None?
      ensures r.Some? ==> r.value.0 == selectedTestbench.value && r.value.2 == selectedDirectory
      ensures r.Some? ==> forall n :: n in r.value.1 <==> exists i :: 0 <= i < |depFiles| && depVars[i] && depFiles[i] == n
      ensures r.Some? && StrictlySorted(depFiles) ==> StrictlySorted(r.value.1) && Distinct(r.value.1)
    {
      match selectedTestbench
      case None => None
      case Some(tb) =>
        var chosen := Chosen(depFiles, depVars);
        assert forall n :: n in chosen <==> exists i :: 0 <= i < |depFiles| && depVars[i] && depFiles[i] == n by {
          forall n { ChosenMembership(depFiles, depVars, n); }
        }
        assert StrictlySorted(depFiles) ==> StrictlySorted(chosen) && Distinct(chosen) by {
          if StrictlySorted(depFiles) {
            ChosenSorted(depFiles, depVars);
            StrictlySortedDistinct(chosen);
          }
        }
        Some((tb, chosen, selectedDirectory))
    }

    /** `run_iverilog`. */
    method RunIverilog(name: string, tb: string, deps: seq<string>, files: Files, r: ToolResult)
        returns (status: Status, after: Files)
      modifies this`log
      ensures var st := CompileStep(name, tb, deps, files, r);
        log == old(log) + st.log && status == st.status && after == st.files
    {
      LogOutput(LogEvent(Running(CompileCommand(name, tb, deps)), Info));
      match r
      case LaunchFailed(NotFound, _) =>
        LogOutput(LogEvent(ToolMissing("iverilog"), Error));
        status, after := Returned(false), files;
      case LaunchFailed(OtherOsError, e) =>
        status, after := Raised(e), files;
      case Exited(code, out, err, left) =>
        after := left;
        if code != 0 {
          LogOutput(LogEvent(CompileFailed(err), Error));
          status := Returned(false);
        } else {
          LogOutput(LogEvent(CompileSucceeded, Success));
          if out != "" {
            LogOutput(LogEvent(ToolOutput(out), Plain));
          }
          status := Returned(true);
        }
    }

    /** `run_vvp`. */
    method RunVvp(name: string, files: Files, r: ToolResult) returns (status: Status, after: Files)
      modifies this`log
      ensures var st := SimulateStep(name, files, r);
        log == old(log) + st.log && status == st.status && after == st.files
    {
      LogOutput(LogEvent(Running(SimulateCommand(name)), Info));
      match r
      case LaunchFailed(NotFound, _) =>
        LogOutput(LogEvent(ToolMissing("vvp"), Error));
        status, after := Returned(false), files;
      case LaunchFailed(OtherOsError, e) =>
        status, after := Raised(e), files;
      case Exited(code, out, err, left) =>
        LogOutput(LogEvent(SimulationResults, Header));
        LogOutput(LogEvent(ToolOutput(out), Plain));
        if err != "" {
          LogOutput(LogEvent(SimulationWarnings(err), Warning));
        }
        status, after := Returned(code == 0), left;
    }

    /** `run_gtkwave`. */
    method RunGtkwave(name: string, files: Files, sp: SpawnResult) returns (launched: bool)
      modifies this`log
      ensures var st := ViewStep(name, files, sp);
        log == old(log) + st.log && st.status == Returned(launched)
    {
      if VcdFile(name) !in files {
        LogOutput(LogEvent(VcdMissing(VcdFile(name)), Warning));
        return false;
      }
      LogOutput(LogEvent(Running(ViewCommand(name)), Info));
      match sp
      case Spawned(pid) =>
        LogOutput(LogEvent(ViewerLaunched(Some(pid)), Success));
        launched := true;
      case SpawnFailed(NotFound, _) =>
        LogOutput(LogEvent(ToolMissing("gtkwave"), Error));
        launched := false;
      case SpawnFailed(OtherOsError, e) =>
        LogOutput(LogEvent(ViewerFailed(e), Error));
        launched := false;
    }

    /** `cleanup_file`. */
    method CleanupFile(name: string, files: Files, rm: RemoveResult) returns (after: Files)
      modifies this`log
      ensures var st := CleanupStep(name, files, rm);
        log == old(log) + st.log && after == st.files
    {
      after := files;
      if name in files {
        match rm
        case RemoveOk =>
          after := files - {name};
          LogOutput(LogEvent(ArtifactRemoved(name), Info));
        case RemoveError(e) =>
          LogOutput(LogEvent(RemoveFailed(e), Error));
      }
    }

    /** The opening banner of a run and what it is about to compile. */
    method LogStart(name: string, tb: string, deps: seq<string>, path: string)
      modifies this`log
      ensures log == old(log) + RunHeader(name, tb, deps, path)
    {
      LogOutput(LogEvent(Rule, Header));
      LogOutput(LogEvent(RunStarted(name), Header));
      LogOutput(LogEvent(Rule, Header));
      LogOutput(LogEvent(WorkingDirectory(path), Info));
      LogOutput(LogEvent(TestbenchIs(tb), Info));
      LogOutput(LogEvent(DependenciesAre(deps), Info));
    }

    /** The closing banner of a run that was not interrupted. */
    method LogFinish(name: string)
      modifies this`log
      ensures log == old(log) + RunFooter(name)
    {
      LogOutput(LogEvent(Rule, Header));
      LogOutput(LogEvent(RunFinished(name), Success));
      LogOutput(LogEvent(Rule, Header));
    }

    /**
      `run_verilog_thread`: the whole run for one testbench, with the tools'
      outcomes in `env`; returns the folder's contents afterwards.
     */
    method RunVerilogThread(tb: string, deps: seq<string>, path: string, files: Files, env: Env)
        returns (after: Files)
      modifies this`log
      ensures var run := PipelineRun(tb, deps, path, files, gtkwaveEnabled, env);
        log == old(log) + run.log && after == run.files
    {
      var name := ArtifactName(tb);
      ghost var head := RunHeader(name, tb, deps, path);
      LogStart(name, tb, deps, path);
      var compiled, compiledFiles := RunIverilog(name, tb, deps, files, env.compiler);
      ghost var c := CompileStep(name, tb, deps, files, env.compiler);
      ghost var afterCompile := log;
      Assoc(old(log), head, c.log);
      if compiled.Raised? {
        LogOutput(LogEvent(UnexpectedError(compiled.error), Error));
        Assoc(old(log), head + c.log, [LogEvent(UnexpectedError(c.status.error), Error)]);
        return compiledFiles;
      }
      ghost var rest := AfterCompile(name, c, gtkwaveEnabled, env);
      Assoc(old(log), head + c.log, rest.log);
      var simulated, simulatedFiles := Returned(false), compiledFiles;
      if compiled == Returned(true) {
        simulated, simulatedFiles := RunVvp(name, compiledFiles, env.simulator);
      }
      ghost var s := SimulationAfter(name, c, env);
      assert log == afterCompile + s.log && simulated == s.status && simulatedFiles == s.files;
      if simulated.Raised? {
        LogOutput(LogEvent(UnexpectedError(simulated.error), Error));
        Assoc(afterCompile, s.log, [LogEvent(UnexpectedError(s.status.error), Error)]);
        return simulatedFiles;
      }
      ghost var afterSimulate := log;
      if simulated == Returned(true) && gtkwaveEnabled {
        var _ := RunGtkwave(name, simulatedFiles, env.viewer);
      }
      ghost var v := if s.status == Returned(true) && gtkwaveEnabled then ViewStep(name, s.files, env.viewer).log else [];
      assert log == afterSimulate + v;
      after := CleanupFile(name, simulatedFiles, env.removal);
      ghost var k := CleanupStep(name, s.files, env.removal);
      LogFinish(name);
      assert log == afterSimulate + v + k.log + RunFooter(name);
      Assoc(afterSimulate, v, k.log);
      Assoc(afterSimulate, v + k.log, RunFooter(name));
      Assoc(afterCompile, s.log, v + k.log + RunFooter(name));
      assert log == afterCompile + rest.log;
    }
  }
}
