/**
  What the pipeline exchanges with the outside world. The three external
  tools (compiler `iverilog`, simulator `vvp`, viewer `gtkwave`) and the
  removal of the artifact are not run: their outcomes are oracle values
  handed in by the caller. Log messages keep which message was written and
  the data it carries, not its wording.
 */
module Toolchain {
  import opened Wrappers
  import Resolver

  /** The colour tag a message is written with (Python `None` is `Plain`). */
  datatype Tag = Info | Success | Warning | Error | Header | Plain

  datatype Message =
    | Rule                                    // a line of sixty `=`
    | RunStarted(name: string)
    | WorkingDirectory(path: string)
    | TestbenchIs(tb: string)
    | DependenciesAre(deps: seq<string>)
    | Running(argv: seq<string>)              // the command line, echoed before it runs
    | CompileFailed(stderr: string)
    | CompileSucceeded
    | ToolOutput(text: string)
    | ToolMissing(tool: string)
    | ToolError(tool: string, detail: string)
    | SimulationResults
    | SimulationWarnings(stderr: string)
    | VcdMissing(file: string)
    | ViewerLaunched(pid: Option<int>)
    | ViewerFailed(detail: string)
    | ArtifactRemoved(name: string)
    | RemoveFailed(detail: string)
    | RunFinished(name: string)
    | UnexpectedError(detail: string)
    | DetectionFailed(tb: string)
    | NoDependenciesSelected
    | DirectoryMissing                        // the folder to refresh does not exist
    | DirectoryRefreshed(path: string)        // Python: the folder was re-listed
    | RefreshFailed(detail: string)           // Python: an exception while refreshing
    | FolderTreeRefreshed                     // Rust: the folder tree was rebuilt

  datatype LogEvent = LogEvent(msg: Message, tag: Tag)

  /** Why a process could not be started: the program is missing, or another OS error. */
  datatype ErrorKind = NotFound | OtherOsError

  /**
    A waited-for tool: it exited with a status code and captured output, and
    left the directory holding `after`; or it could not be started.
   */
  datatype ToolResult =
    | Exited(code: int, stdout: string, stderr: string, after: Resolver.Files)
    | LaunchFailed(kind: ErrorKind, detail: string)

  /** A detached viewer: started with a process id, or not started. */
  datatype SpawnResult = Spawned(pid: int) | SpawnFailed(kind: ErrorKind, detail: string)

  datatype RemoveResult = RemoveOk | RemoveError(detail: string)

  /** The outcomes the outside world supplies for one run. */
  datatype Env = Env(compiler: ToolResult, simulator: ToolResult, viewer: SpawnResult, removal: RemoveResult)

  /** A tool succeeded: it started and exited with status 0. */
  predicate Succeeded(r: ToolResult) {
    r.Exited? && r.code == 0
  }

  /** The directory after a tool: what it left, or unchanged when it never started. */
  function FilesAfter(files: Resolver.Files, r: ToolResult): Resolver.Files {
    if r.Exited? then r.after else files
  }

  /** The waveform dump the testbench writes: `<name>.vcd`. */
  function VcdFile(name: string): string {
    name + ".vcd"
  }

  /**
    The compiler command line: all warnings on, the artifact named
    after the testbench, the testbench first and then the dependencies.
   */
  function CompileCommand(name: string, tb: string, deps: seq<string>): seq<string> {
    ["iverilog", "-Wall", "-o", name, tb] + deps
  }

  /** The simulator command line. */
  function SimulateCommand(name: string): seq<string> {
    ["vvp", name]
  }

  /** The viewer command line. */
  function ViewCommand(name: string): seq<string> {
    ["gtkwave", VcdFile(name)]
  }
}
