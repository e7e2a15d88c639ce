# Verilog testbench runner: dependency resolver and tool pipeline

This project models the core of a small desktop tool that comes in two
variants, `Verilog_HDL_Runner.py` (Tk) and `src/main.rs` (egui). The user
picks a Verilog testbench `X_tb.v` in a folder. The tool works out which
other `.v` files the testbench needs and shows them as a checked list. It
then runs `iverilog`, `vvp` and optionally `gtkwave`, and removes the
compiled artifact afterwards.

Modules:

- `Text`: the ASCII character classes of the instantiation pattern, lines,
  replace-all (`str.replace` / `String::replace`), code-point order and sorting.
- `Scanner`: the per-line pattern `^\s*(\w+)\s+(\w+)\s*\(`. `MatchAt` is a
  reference definition and `MatchLine` an executable matcher, and the two are
  proved to agree. It also holds the two reserved-word filters: the Python
  variant lower-cases and checks 41 words, the Rust variant checks 11 words
  case-sensitively.
- `Resolver`: the folder as a map from file name to `Option<content>`.
  `None` means the file exists but cannot be read; a missing key means the
  file does not exist. The module also holds:
  - the sorted listing and the artifact and convention names;
  - the direct references of a text;
  - `IsClosureOf`, the least set that holds the starting files and is closed
    under "refers to".
- `Toolchain`: log messages with their colour tags, the tools' outcomes as
  oracle values (`Env`), and the three command lines.
- `Selection`: the names whose flag is checked, in list order.
- `PythonRunner`:
  - the worklist resolver `DetectNestedDependencies`, proved to return
    exactly the least closed superset and to read each file at most once;
  - the `VerilogRunner` object: dependency list, flags, output log and the
    pipeline stages as methods;
  - `PipelineRun`, the run as a function of the tools' outcomes, with the
    gating and clean-up lemmas.
- `RustRunner`:
  - the `VerilogRunnerApp` state;
  - single-level detection;
  - `LogToOutput` over a shared `OutputLog` object;
  - the free `RunVerilogThread` with its early returns, and `ThreadRun`, its
    specification.

The model follows the code, including these behaviours a reader may not
expect:

- Python clean-up is not reached on every exit path. A launch error of
  `iverilog` or `vvp` other than "program not found" escapes
  `run_iverilog`/`run_vvp`. It is caught by the `except Exception` of
  `run_verilog_thread`, which logs it and skips clean-up and the closing
  banner (`ExceptionSkipsCleanup`). Output that cannot be decoded as text
  raises there too; the model does not represent it (see below).
- The Rust variant returns at once when the compile fails or `iverilog`
  cannot be started. It skips simulation, viewer and clean-up, so an artifact
  the compiler left stays (`CompileFailureStops`).
- The Rust variant never checks `vvp`'s exit status before the viewer
  (`ViewerIgnoresSimulationStatus`).
- The Rust variant reports the viewer as launched, and the artifact as
  removed, whatever the spawn or the removal returned
  (`ViewerOutcomeIgnored`, `CleanupReportedRegardless`).

## Model

| member | source | states |
|---|---|---|
| Scanner.MatchLineCorrect | Verilog_HDL_Runner.py:346-350 | a line yields candidate `m` exactly when it matches `^\s*(\w+)\s+(\w+)\s*\(` with `m` as the first identifier (both directions) |
| Scanner.MatchLineSound | Verilog_HDL_Runner.py:346-350 | what the matcher returns is a match of the pattern |
| Scanner.MatchLineComplete | Verilog_HDL_Runner.py:346-350 | any way a line can match is the one the matcher finds, so the capture is unique |
| Scanner.ScanMembership | src/main.rs:213-215 | a name is scanned from a text exactly when some line of it matches with that name first |
| Scanner.ScanLinesAppend | src/main.rs:213-215 | scanning one more line appends that line's capture, if any, in line order |
| Scanner.ScanLinesIdentifiers | Verilog_HDL_Runner.py:350 | every candidate is a non-empty run of word characters |
| Scanner.RustReservedIsPythonReserved | src/main.rs:218-223 | every Rust keyword is also rejected by the Python filter |
| Scanner.CaseSensitivityDiffers | Verilog_HDL_Runner.py:352 | Python rejects `Wire` (it lower-cases first) while Rust keeps it |
| Text.LinesRoundTrip | src/main.rs:213 | splitting a text into lines loses nothing: joined back it is the text |
| Text.Sort | Verilog_HDL_Runner.py:426 | sorting distinct names gives a strictly ordered permutation of them |
| Text.SortedUnique | Verilog_HDL_Runner.py:426 | two strictly sorted lists with the same members are equal, so the listing's order does not matter |
| Resolver.SortedListing | Verilog_HDL_Runner.py:421-426 | the kept names of a folder listing, strictly sorted, each exactly when listed and kept; nothing when listing fails |
| Resolver.StandardNames | Verilog_HDL_Runner.py:569 | for `stem_tb.v` with no dot in `stem`, the artifact is `stem` and the convention file is `stem.v` |
| Resolver.ArtifactNameReplacesEveryOccurrence | Verilog_HDL_Runner.py:569 | the replace removes every `_tb.v`, not only the suffix: `a_tb.v_tb.v` gives `a` |
| Resolver.ReferencedFilesMembership | Verilog_HDL_Runner.py:349-357 | a file is referenced exactly when it exists and is `<m>.v` for a scanned, non-reserved `m` |
| Resolver.CollectReferences | Verilog_HDL_Runner.py:349-357 | the scan loop collects exactly the referenced files, all of which exist |
| Resolver.DirectDependencies | Verilog_HDL_Runner.py:359-362 | the direct set holds only existing files, and always holds the convention file when it exists |
| Resolver.DirectPythonWithinRust | src/main.rs:218-223 | Python's direct set is included in Rust's (its filter is stricter) |
| Resolver.ClosureJustified | Verilog_HDL_Runner.py:406-413 | every member of the closure is a starting file or is referred to by another member |
| Selection.ChosenMembership | Verilog_HDL_Runner.py:478 | a name is selected exactly when some entry carrying it is checked |
| Selection.ChosenAll | Verilog_HDL_Runner.py:452-455 | with every flag set, the selection is the whole list in order |
| Selection.ChosenNone | Verilog_HDL_Runner.py:457-460 | with no flag set, the selection is empty |
| Selection.ChosenSorted | Verilog_HDL_Runner.py:478 | the selection keeps list order, so from the sorted list it comes out sorted |
| PythonRunner.AddReferencedModules | Verilog_HDL_Runner.py:406-413 | the inner loop adds exactly the existing referenced files to the set, and the new ones to the worklist |
| PythonRunner.ScanFile | Verilog_HDL_Runner.py:398-415 | visiting a file adds exactly its successors; an unreadable file adds nothing |
| PythonRunner.DetectNestedDependencies | Verilog_HDL_Runner.py:373-415 | terminates, with the result the least closed superset of the input; new members exist; each file read at most once |
| PythonRunner.ClosureUnique | Verilog_HDL_Runner.py:373-415 | the closure is unique, so the result does not depend on iteration order |
| PythonRunner.WorklistStart | Verilog_HDL_Runner.py:385-386 | the worklist starts as the given files with nothing checked, and the loop invariant holds |
| PythonRunner.WorklistSkip | Verilog_HDL_Runner.py:389-391 | dropping an already-checked file from the front keeps the loop invariant |
| PythonRunner.WorklistMissing | Verilog_HDL_Runner.py:392-396 | a file that does not exist is marked checked, adds nothing, and keeps the invariant |
| PythonRunner.WorklistVisit | Verilog_HDL_Runner.py:392-413 | scanning an existing file adds what it refers to, marks it checked and scanned once, and keeps the invariant |
| PythonRunner.WorklistDone | Verilog_HDL_Runner.py:388 | an empty worklist means the result is closed and least, with every existing member scanned |
| PythonRunner.CompileRunning | Verilog_HDL_Runner.py:484-485 | the compile stage launches exactly `iverilog -Wall -o name tb deps…` |
| PythonRunner.CompileMessages | Verilog_HDL_Runner.py:482-500 | the compile stage writes only tool messages |
| PythonRunner.SimulateMessages | Verilog_HDL_Runner.py:502-516 | the simulate stage writes only tool messages and launches exactly `vvp name` |
| PythonRunner.ViewMessages | Verilog_HDL_Runner.py:528-553 | the viewer is launched exactly when `<name>.vcd` exists, and a warning is written exactly when it does not |
| PythonRunner.FinishViewer | Verilog_HDL_Runner.py:580-582 | after a returned simulation, the viewer is launched iff the simulation succeeded, the option is on and `<name>.vcd` exists; a warning iff it is missing |
| PythonRunner.FinishCleanup | Verilog_HDL_Runner.py:584-588 | after a returned simulation, the artifact is removed iff it exists and removal succeeds, and the completion banner closes the run |
| PythonRunner.SimulationAfterFacts | Verilog_HDL_Runner.py:578-579 | the simulator runs (and is echoed) only after a successful compile; its status is success iff both succeeded |
| PythonRunner.AfterCompileViewer | Verilog_HDL_Runner.py:578-582 | after a returned compile: `vvp` iff the compile succeeded, then the viewer gate and the missing-`.vcd` warning |
| PythonRunner.AfterCompileRemoval | Verilog_HDL_Runner.py:578-584 | after a returned compile and simulation, the artifact is removed iff it exists and removal succeeds |
| PythonRunner.AfterCompileFooter | Verilog_HDL_Runner.py:586-588 | after a returned compile and simulation, the completion banner closes the run |
| PythonRunner.FirstCommandIsCompile | Verilog_HDL_Runner.py:571-585 | after the six banner lines, the first command echoed is the compile command |
| PythonRunner.LaunchedCommands | Verilog_HDL_Runner.py:578-582 | the commands a run launches: compile always, simulate iff compile succeeded, viewer iff both succeeded, option on and `.vcd` present |
| PythonRunner.SimulateOnlyAfterCompile | Verilog_HDL_Runner.py:578-579 | `vvp` is launched exactly when the compile succeeded |
| PythonRunner.ViewerGate | Verilog_HDL_Runner.py:578-582 | `gtkwave` is launched exactly when compile and simulation both succeeded, the option is on and `<name>.vcd` exists |
| PythonRunner.VcdMissingWarned | Verilog_HDL_Runner.py:530-534 | when the viewer is due but `<name>.vcd` is missing, a warning is written (and only then) |
| PythonRunner.CleanupAfterEveryOutcome | Verilog_HDL_Runner.py:584 | unless an exception escapes, the artifact is removed exactly when it exists and removal succeeds; nothing else changes |
| PythonRunner.RunCompletes | Verilog_HDL_Runner.py:586-588 | unless an exception escapes, the run ends with the completion banner |
| PythonRunner.ExceptionSkipsCleanup | Verilog_HDL_Runner.py:590-591 | an escaping launch error ends the run with an error message, no clean-up and no completion banner |
| PythonRunner.CompilerRaised | Verilog_HDL_Runner.py:590-591 | an OS error other than "not found" from `iverilog` ends the run at once: folder unchanged, no clean-up, no banner |
| PythonRunner.SimulatorRaised | Verilog_HDL_Runner.py:590-591 | the same error from `vvp` after a successful compile leaves the compiler's folder, artifact included |
| PythonRunner.CompileOutcome | Verilog_HDL_Runner.py:482-500 | over the modelled tool outcomes, the compile stage raises exactly on a non-"not found" launch error, and otherwise returns success iff exit status 0 |
| PythonRunner.VerilogRunner.constructor | Verilog_HDL_Runner.py:31-35 | the folder is the working directory, the lists are empty, both options start enabled, and the log holds exactly the one message the refresh writes: missing folder, exception, or success |
| PythonRunner.VerilogRunner.RefreshFiles | Verilog_HDL_Runner.py:220-237 | a missing folder or an exception is reported and changes neither the folder, the selection nor the dependency list; otherwise the folder is taken, the testbench selection dropped (`update_file_list` empties the list, Verilog_HDL_Runner.py:292), the dependency list cleared and the refresh reported |
| PythonRunner.VerilogRunner.LogOutput | Verilog_HDL_Runner.py:555-559 | one message is appended to the output, the rest unchanged |
| PythonRunner.VerilogRunner.ClearDependencyList | Verilog_HDL_Runner.py:445-450 | both parallel lists become empty |
| PythonRunner.VerilogRunner.UpdateDependencyList | Verilog_HDL_Runner.py:417-443 | the list is the sorted non-testbench, non-hidden `.v` names, and flag i is set iff name i was auto-detected |
| PythonRunner.VerilogRunner.DetectDependencies | Verilog_HDL_Runner.py:325-371 | a readable testbench checks exactly the closure of its direct set; an unreadable one logs an error and checks nothing |
| PythonRunner.VerilogRunner.SelectAllDeps | Verilog_HDL_Runner.py:452-455 | every flag set, length and names unchanged |
| PythonRunner.VerilogRunner.DeselectAllDeps | Verilog_HDL_Runner.py:457-460 | every flag cleared, length and names unchanged |
| PythonRunner.VerilogRunner.SelectedFiles | Verilog_HDL_Runner.py:468-480 | nothing without a selected testbench; otherwise the testbench, exactly the checked names, and the folder; from a sorted list the names come out sorted and without duplicates |
| PythonRunner.VerilogRunner.RunIverilog | Verilog_HDL_Runner.py:482-500 | appends the compile stage's messages and returns its outcome and the folder after it |
| PythonRunner.VerilogRunner.RunVvp | Verilog_HDL_Runner.py:502-516 | appends the simulate stage's messages; success is exit status 0 |
| PythonRunner.VerilogRunner.RunGtkwave | Verilog_HDL_Runner.py:528-553 | appends the viewer stage's messages and reports whether the viewer started |
| PythonRunner.VerilogRunner.CleanupFile | Verilog_HDL_Runner.py:518-526 | removes an existing artifact when removal succeeds, logging either outcome |
| PythonRunner.VerilogRunner.LogStart | Verilog_HDL_Runner.py:571-576 | appends the opening banner, folder, testbench and dependencies |
| PythonRunner.VerilogRunner.LogFinish | Verilog_HDL_Runner.py:586-588 | appends the completion banner |
| PythonRunner.VerilogRunner.RunVerilogThread | Verilog_HDL_Runner.py:565-593 | the log grows by exactly `PipelineRun`'s messages and the folder ends as `PipelineRun` says |
| RustRunner.Detected | src/main.rs:205-243 | detected files all exist; an unreadable testbench detects nothing |
| RustRunner.DetectedMembership | src/main.rs:205-243 | no transitive step: a file is detected iff the testbench is readable and the file exists and is either the convention file or directly referenced |
| RustRunner.FirstCommandIsCompile | src/main.rs:370-378 | after four opening messages the first command is `iverilog -Wall -o name tb deps…` |
| RustRunner.CompileFailureStops | src/main.rs:385-405 | a failed or unlaunchable compile ends the run: no simulate, viewer, clean-up or completion, and the folder stays as the compiler left it |
| RustRunner.AfterBuildFacts | src/main.rs:407-461 | after a successful compile: simulate always, viewer gate, warning, launch message, clean-up message, completion last |
| RustRunner.ViewerIgnoresSimulationStatus | src/main.rs:427-449 | after a successful compile, the viewer runs iff the option is on and `.vcd` exists, whatever `vvp`'s status; otherwise a warning |
| RustRunner.CleanupReportedRegardless | src/main.rs:451-461 | the clean-up message is written iff the artifact existed, even if removal failed; only the artifact can disappear |
| RustRunner.ViewerOutcomeIgnored | src/main.rs:435-443 | the viewer's spawn outcome does not affect the run at all |
| RustRunner.LogToOutput | src/main.rs:464-467 | the message is appended at the end and earlier text is unchanged |
| RustRunner.RunVerilogThread | src/main.rs:345-462 | the log grows by exactly `ThreadRun`'s messages and the folder ends as `ThreadRun` says |
| RustRunner.Simulate | src/main.rs:408-425 | appends the simulation messages; the status is not looked at |
| RustRunner.View | src/main.rs:427-449 | appends the viewer messages for the option and the `.vcd` file |
| RustRunner.Cleanup | src/main.rs:451-456 | removes the artifact when removal succeeds and writes the message whenever it existed |
| RustRunner.VerilogRunnerApp.constructor | src/main.rs:86-106 | both options on, no selection, the sorted testbench list of the folder, and the log holds exactly the folder-tree refresh message (src/main.rs:126) |
| RustRunner.VerilogRunnerApp.UpdateTestbenchList | src/main.rs:178-203 | dependencies and selection cleared; the testbench list is the sorted `*_tb.v` names |
| RustRunner.VerilogRunnerApp.UpdateDependencyList | src/main.rs:245-276 | the list is the sorted `.v` non-testbench names; `checked` iff auto-detected, none for `None` |
| RustRunner.VerilogRunnerApp.DetectDependencies | src/main.rs:205-243 | the list checks exactly `Detected` |
| RustRunner.VerilogRunnerApp.OnTestbenchClicked | src/main.rs:549-559 | the clicked index is selected and the list rebuilt, auto-detected or unchecked by the option |
| RustRunner.VerilogRunnerApp.SelectAllDeps | src/main.rs:322-326 | every entry checked, names unchanged |
| RustRunner.VerilogRunnerApp.DeselectAllDeps | src/main.rs:328-332 | every entry unchecked, names unchanged |
| RustRunner.VerilogRunnerApp.RunRequest | src/main.rs:279-287 | a run exists iff the selected index is in bounds; it takes that testbench and exactly the checked names; from a sorted list they come out sorted and without duplicates |
| RustRunner.VerilogRunnerApp.RunVerilog | src/main.rs:278-315 | with no valid selection nothing happens; otherwise warn on an empty selection, then the run |

## Left out

- The GUI (Tk and egui widgets, styles, fonts, scrolling), message boxes and
  the confirmation dialog before a run without dependencies: presentation only.
- The folder tree, `has_verilog_files` and `os.chdir`: directory walking and
  process state. The folder's contents are a parameter.
- `update_file_list` is modelled only through `RefreshFiles`: the folder it
  takes, the testbench selection it drops and the dependency list it clears.
  The Python testbench list itself is not kept (its names are what
  `Resolver.SortedListing` gives for `*_tb.v`), and the folder-tree click
  that calls it alone is left out with the tree.
- Threads, `root.after`, the running flag and the log's mutex. The log is a
  plain sequence, and a run is one sequential call.
- Running the external tools. Each outcome is an oracle value: an exit
  status with output and the folder it left, or a launch error that is
  "not found" or another OS error.
- Message wording, emoji, colour markup and the `'='*60` rules. Each message
  keeps only its kind and the data it carries; the Python tags are kept.
- Scanner: Python applies the pattern to the whole text with `re.MULTILINE`,
  where `\s` can cross line breaks. The model matches each line on its own.
- Scanner: `\w`, `\s` and `lower()` are modelled over ASCII, not Unicode.
- Rust's `lines()` strips a trailing `\r`. The model keeps it, which changes
  no match because the pattern ends at `(`.
- File reading: Python's `errors='ignore'` decoding and Rust's
  `read_to_string` failure on non-UTF-8 text are both folded into
  "readable or not".
- Directories whose names end in `.v`, file names that are not UTF-8, and a
  `read_dir` entry that fails: the folder is a flat map of files.
- DetectNestedDependencies: Python grows the caller's set in place; the
  model returns the grown set instead.
- Python scans finditer's matches in order. The model scans lines, which
  gives them in the same order, given the per-line matching above.
- CompileOutcome: Python decodes the tools' output as text. Undecodable
  output raises `UnicodeDecodeError` after `iverilog` or `vvp` has run, and
  that error also reaches `except Exception`, skipping clean-up. The tool
  outcomes have no such case, so neither the compile and simulate stages nor
  `PipelineRun` model it.
- constructor (Python): the error `update_file_list` logs on its own when it
  fails is not modelled; the folder tree that `refresh_files` rebuilds is
  left out.
- RefreshFiles: the same `update_file_list` error message is not modelled.
  Its success branch always appends exactly the success message, whereas the
  source may write that error just before it.
- `on_testbench_select`, `on_auto_detect_toggle` and `run_verilog` of the
  Python variant are UI dispatch around the modelled operations.
