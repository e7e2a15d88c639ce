/**
  What both variants' dependency resolvers share: the directory they look
  in, the naming conventions for testbenches, the set of files one text
  refers to, and the loop that collects that set.
 */
module Resolver {
  import opened Wrappers
  import opened Text
  import opened Scanner

  // ---------------------------------------------------------------------------
  // The selected directory.

  /** File name to text; `None` is a file that exists but cannot be read. */
  type Files = map<string, Option<string>>

  /**
    The selected directory: its files, and whether its entries can be listed
    (a directory can allow opening files by name and still refuse a listing).
   */
  datatype Folder = Folder(listable: bool, files: Files)

  /** The text of a file, or `None` when it is missing or unreadable. */
  function Read(dir: Folder, name: string): Option<string> {
    if name in dir.files then dir.files[name] else None
  }

  /** The names a directory listing returns: none at all when listing fails. */
  function Listing(dir: Folder): set<string> {
    if dir.listable then dir.files.Keys else {}
  }

  /**
    Every element of `s`, each once, in whichever order the set is iterated:
    `list(dependencies)`, `glob` and `read_dir` promise no order.
   */
  method Enumerate(s: set<string>) returns (xs: seq<string>)
    ensures Distinct(xs)
    ensures forall x :: x in xs <==> x in s
  {
    xs := [];
    var rest := s;
    while rest != {}
      invariant Distinct(xs)
      invariant forall x :: x in xs <==> x in s && x !in rest
      invariant rest <= s
      decreases rest
    {
      var x :| x in rest;
      xs := xs + [x];
      rest := rest - {x};
    }
  }

  /**
    List the directory, keep the names `keep` accepts and sort them:
    `sorted(...)` over a filtered `glob`, `sort_by_key(file_name)` over a
    filtered `read_dir`.
   */
  method SortedListing(dir: Folder, keep: string -> bool) returns (names: seq<string>)
    ensures StrictlySorted(names)
    ensures forall n :: n in names <==> n in Listing(dir) && keep(n)
  {
    var entries := Enumerate(Listing(dir));
    var kept := [];
    for i := 0 to |entries|
      invariant Distinct(kept)
      invariant forall n :: n in kept <==> n in entries[..i] && keep(n)
    {
      assert entries[..i + 1] == entries[..i] + [entries[i]];
      if keep(entries[i]) {
        assert entries[i] !in entries[..i];
        kept := kept + [entries[i]];
      }
    }
    assert entries[..|entries|] == entries;
    names := Sort(kept);
    assert forall n :: n in names <==> n in multiset(kept);
  }

  // ---------------------------------------------------------------------------
  // Naming conventions.

  const TestbenchSuffix := "_tb.v"

  /** The compiled artifact: every `_tb.v` in the testbench name removed. */
  function ArtifactName(tb: string): string {
    ReplaceAll(tb, TestbenchSuffix, "")
  }

  /** The device under test by convention: every `_tb.v` replaced by `.v`. */
  function ConventionName(tb: string): string {
    ReplaceAll(tb, TestbenchSuffix, ".v")
  }

  /** The file a module name refers to. */
  function ModuleFile(m: string): string {
    m + ".v"
  }

  lemma NoDotNoEarlyOccurrence(stem: string)
    requires '.' !in stem
    ensures forall i: nat :: i < |stem| ==> !OccursAt(stem + TestbenchSuffix, TestbenchSuffix, i)
  {
    var s := stem + TestbenchSuffix;
    forall i: nat | i < |stem| ensures !OccursAt(s, TestbenchSuffix, i) {
      if i + 5 <= |s| {
        assert s[i + 3] != '.' by {
          if i + 3 < |stem| {
            assert s[i + 3] == stem[i + 3];
          } else {
            assert s[i + 3] == TestbenchSuffix[i + 3 - |stem|];
          }
        }
        assert s[i..i + 5][3] == s[i + 3];
      }
    }
  }

  /**
    For a testbench named `<stem>_tb.v` whose stem has no dot, the artifact is
    `<stem>` and the conventional device under test is `<stem>.v`.
   */
  lemma StandardNames(stem: string)
    requires '.' !in stem
    ensures ArtifactName(stem + TestbenchSuffix) == stem
    ensures ConventionName(stem + TestbenchSuffix) == stem + ".v"
  {
    NoDotNoEarlyOccurrence(stem);
    ReplaceAllSuffix(stem, TestbenchSuffix, "");
    ReplaceAllSuffix(stem, TestbenchSuffix, ".v");
  }

  /** Replace-all, not strip-suffix: a second `_tb.v` inside the name goes too. */
  lemma ArtifactNameReplacesEveryOccurrence()
    ensures ArtifactName("a_tb.v_tb.v") == "a"
  {
    var s := "a_tb.v_tb.v";
    assert s[..5][0] != TestbenchSuffix[0];
    assert s[1..][..5] == TestbenchSuffix;
    assert s[1..][5..][..5] == TestbenchSuffix;
    assert s[1..][5..][5..] == [];
  }

  // ---------------------------------------------------------------------------
  // The files a text refers to.

  /** The existing `<m>.v` files for the non-reserved names `m` among `cands`. */
  function FilesFor(dir: Folder, cands: seq<string>, d: Dialect): (r: set<string>)
    ensures r <= dir.files.Keys
  {
    set m | m in cands && !IsReserved(d, m) && ModuleFile(m) in dir.files :: ModuleFile(m)
  }

  lemma FilesForAppend(dir: Folder, cands: seq<string>, m: string, d: Dialect)
    ensures FilesFor(dir, cands + [m], d)
         == FilesFor(dir, cands, d) + (if !IsReserved(d, m) && ModuleFile(m) in dir.files then {ModuleFile(m)} else {})
  {
    assert forall x :: x in cands + [m] <==> x in cands || x == m;
  }

  /** The file named by a line's capture, when it is not reserved and exists. */
  function LineFiles(dir: Folder, line: string, d: Dialect): set<string> {
    var found := MatchLine(line);
    if found.Some? && !IsReserved(d, found.value) && ModuleFile(found.value) in dir.files
    then {ModuleFile(found.value)} else {}
  }

  /** Scanning one more line adds at most the file named by that line's capture. */
  lemma FilesForNextLine(dir: Folder, ls: seq<string>, line: string, d: Dialect)
    ensures FilesFor(dir, ScanLines(ls + [line]), d) == FilesFor(dir, ScanLines(ls), d) + LineFiles(dir, line, d)
  {
    ScanLinesAppend(ls, line);
    match MatchLine(line)
    case Some(m) => FilesForAppend(dir, ScanLines(ls), m, d);
    case None => assert ScanLines(ls + [line]) == ScanLines(ls) + [];
  }

  /** The existing files a text refers to by module instantiation. */
  function ReferencedFiles(dir: Folder, text: string, d: Dialect): set<string> {
    FilesFor(dir, Scan(text), d)
  }

  /** A referenced file exists and is named after a non-reserved scanned name. */
  lemma ReferencedFilesMembership(dir: Folder, text: string, d: Dialect, f: string)
    ensures f in ReferencedFiles(dir, text, d)
        <==> f in dir.files && exists m :: m in Scan(text) && !IsReserved(d, m) && f == ModuleFile(m)
  {
  }

  /**
    One line of the scan loop: when the line's name is not reserved and
    `<name>.v` exists, add that file.
   */
  method AddLineReference(dir: Folder, line: string, d: Dialect, deps: set<string>) returns (deps': set<string>)
    ensures deps' == deps + LineFiles(dir, line, d)
  {
    deps' := deps;
    var found := MatchLine(line);
    if found.Some? && !IsReserved(d, found.value) {
      var moduleFile := ModuleFile(found.value);
      if moduleFile in dir.files {
        deps' := deps' + {moduleFile};
      }
    }
  }

  /**
    The scan loop of `detect_dependencies`: for every line that matches and
    whose name is not reserved, add `<name>.v` when that file exists.
   */
  method CollectReferences(dir: Folder, text: string, d: Dialect) returns (deps: set<string>)
    ensures deps == ReferencedFiles(dir, text, d)
    ensures deps <= dir.files.Keys
  {
    deps := CollectLines(dir, Lines(text), d);
  }

  method CollectLines(dir: Folder, lines: seq<string>, d: Dialect) returns (deps: set<string>)
    ensures deps == FilesFor(dir, ScanLines(lines), d)
  {
    deps := {};
    for i := 0 to |lines|
      invariant deps == FilesFor(dir, ScanLines(lines[..i]), d)
    {
      assert lines[..i + 1] == lines[..i] + [lines[i]];
      FilesForNextLine(dir, lines[..i], lines[i], d);
      deps := AddLineReference(dir, lines[i], d, deps);
    }
    assert lines[..|lines|] == lines;
  }

  /**
    The automatically detected set before any transitive step: the files the
    testbench text refers to, plus the conventional device under test when it
    exists.
   */
  function DirectDependencies(dir: Folder, tb: string, text: string, d: Dialect): (r: set<string>)
    ensures r <= dir.files.Keys
    ensures ConventionName(tb) in dir.files ==> ConventionName(tb) in r
  {
    ReferencedFiles(dir, text, d)
      + (if ConventionName(tb) in dir.files then {ConventionName(tb)} else {})
  }

  /**
    Each file of the Python variant's direct set is in the Rust variant's: its
    reserved-word filter is the stricter one.
   */
  lemma DirectPythonWithinRust(dir: Folder, tb: string, text: string)
    ensures DirectDependencies(dir, tb, text, Python) <= DirectDependencies(dir, tb, text, Rust)
  {
    forall f | f in ReferencedFiles(dir, text, Python) ensures f in ReferencedFiles(dir, text, Rust) {
      var m :| m in Scan(text) && !IsReserved(Python, m) && f == ModuleFile(m);
      if IsReserved(Rust, m) { RustReservedIsPythonReserved(m); }
    }
  }

  // ---------------------------------------------------------------------------
  // Transitive references.

  /** The files that file `f` refers to; none when it is missing or unreadable. */
  function Successors(dir: Folder, f: string, d: Dialect): set<string> {
    match Read(dir, f)
    case Some(text) => ReferencedFiles(dir, text, d)
    case None => {}
  }

  /** Every readable file of `s` refers only to existing files that are in `s`. */
  ghost predicate Closed(dir: Folder, s: set<string>, d: Dialect) {
    forall f :: f in s ==> Successors(dir, f, d) <= s
  }

  /** `r` is the least set that contains `init` and is closed. */
  ghost predicate IsClosureOf(dir: Folder, init: set<string>, r: set<string>, d: Dialect) {
    && init <= r
    && Closed(dir, r, d)
    && forall s :: init <= s && Closed(dir, s, d) ==> r <= s
  }

  /**
    Nothing is in the closure without a reason: each member is one of the
    starting files or is referred to by another member.
   */
  lemma ClosureJustified(dir: Folder, init: set<string>, r: set<string>, d: Dialect)
    requires IsClosureOf(dir, init, r, d)
    ensures forall f :: f in r ==> f in init || exists g :: g in r && f in Successors(dir, g, d)
  {
    var t := init + set f, g | f in r && g in r && f in Successors(dir, g, d) :: f;
    forall f | f in t ensures Successors(dir, f, d) <= t {
      forall h | h in Successors(dir, f, d) ensures h in t {
        assert f in r;
        assert h in r;
      }
    }
    assert Closed(dir, t, d);
  }
}
