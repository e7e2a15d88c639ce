/**
  The module-reference scanner. Both variants apply the pattern
  `^\s*(\w+)\s+(\w+)\s*\(` line by line and keep the first identifier as a
  candidate module name; they differ only in which candidates they then
  reject as reserved words.
 */
module Scanner {
  import opened Wrappers
  import opened Text

  // ---------------------------------------------------------------------------
  // The pattern, as a reference definition.

  /**
    `line` splits as: spaces `[0, i)`, first identifier `[i, j)`, at least one
    space `[j, k)`, second identifier `[k, l)`, spaces `[l, p)` and `(` at `p`.
   */
  ghost predicate MatchAt(line: string, i: nat, j: nat, k: nat, l: nat, p: nat) {
    && i < j < k < l <= p < |line|
    && (forall x :: 0 <= x < i ==> IsSpace(line[x]))
    && (forall x :: i <= x < j ==> IsWordChar(line[x]))
    && (forall x :: j <= x < k ==> IsSpace(line[x]))
    && (forall x :: k <= x < l ==> IsWordChar(line[x]))
    && (forall x :: l <= x < p ==> IsSpace(line[x]))
    && line[p] == '('
  }

  /** `line` matches the pattern with `m` as its first captured identifier. */
  ghost predicate Matches(line: string, m: string) {
    exists i: nat, j: nat, k: nat, l: nat, p: nat :: MatchAt(line, i, j, k, l, p) && m == line[i..j]
  }

  // ---------------------------------------------------------------------------
  // The matcher.

  /** The end of the run of spaces that starts at `i`. */
  function SpanSpace(s: string, i: nat): (j: nat)
    requires i <= |s|
    ensures i <= j <= |s|
    ensures forall x :: i <= x < j ==> IsSpace(s[x])
    ensures j < |s| ==> !IsSpace(s[j])
    decreases |s| - i
  {
    if i < |s| && IsSpace(s[i]) then SpanSpace(s, i + 1) else i
  }

  /** The end of the run of word characters that starts at `i`. */
  function SpanWord(s: string, i: nat): (j: nat)
    requires i <= |s|
    ensures i <= j <= |s|
    ensures forall x :: i <= x < j ==> IsWordChar(s[x])
    ensures j < |s| ==> !IsWordChar(s[j])
    decreases |s| - i
  {
    if i < |s| && IsWordChar(s[i]) then SpanWord(s, i + 1) else i
  }

  /**
    Match one line against the pattern and return its first identifier.
    `\w+` and `\s+` are greedy and the two classes are disjoint, so one pass
    over maximal runs finds the only way the pattern can match.
   */
  function MatchLine(line: string): Option<string> {
    var i := SpanSpace(line, 0);
    var j := SpanWord(line, i);
    var k := SpanSpace(line, j);
    var l := SpanWord(line, k);
    var p := SpanSpace(line, l);
    if i < j && j < k && k < l && p < |line| && line[p] == '(' then Some(line[i..j]) else None
  }

  /** A run of spaces that ends where a non-space (or the line) begins is the maximal one. */
  lemma SpanSpaceAt(s: string, i: nat, j: nat)
    requires i <= j <= |s|
    requires forall x :: i <= x < j ==> IsSpace(s[x])
    requires j < |s| ==> !IsSpace(s[j])
    ensures SpanSpace(s, i) == j
  {
  }

  lemma SpanWordAt(s: string, i: nat, j: nat)
    requires i <= j <= |s|
    requires forall x :: i <= x < j ==> IsWordChar(s[x])
    requires j < |s| ==> !IsWordChar(s[j])
    ensures SpanWord(s, i) == j
  {
  }

  /** What the matcher returns is a match of the reference definition. */
  lemma MatchLineSound(line: string)
    requires MatchLine(line).Some?
    ensures Matches(line, MatchLine(line).value)
  {
    var i := SpanSpace(line, 0);
    var j := SpanWord(line, i);
    var k := SpanSpace(line, j);
    var l := SpanWord(line, k);
    var p := SpanSpace(line, l);
    assert MatchAt(line, i, j, k, l, p);
  }

  /** Every way the line can match the pattern is the one the matcher finds. */
  lemma MatchLineComplete(line: string, i: nat, j: nat, k: nat, l: nat, p: nat)
    requires MatchAt(line, i, j, k, l, p)
    ensures MatchLine(line) == Some(line[i..j])
  {
    SpanSpaceAt(line, 0, i);
    SpanWordAt(line, i, j);
    SpanSpaceAt(line, j, k);
    SpanWordAt(line, k, l);
    SpanSpaceAt(line, l, p);
  }

  /** The matcher finds exactly the matches of the reference definition. */
  lemma MatchLineCorrect(line: string, m: string)
    ensures MatchLine(line) == Some(m) <==> Matches(line, m)
  {
    if MatchLine(line) == Some(m) {
      MatchLineSound(line);
    }
    if Matches(line, m) {
      var i: nat, j: nat, k: nat, l: nat, p: nat :| MatchAt(line, i, j, k, l, p) && m == line[i..j];
      MatchLineComplete(line, i, j, k, l, p);
    }
  }

  // ---------------------------------------------------------------------------
  // Scanning a whole text.

  function ScanLines(ls: seq<string>): (ms: seq<string>)
    ensures |ms| <= |ls|
  {
    if ls == [] then []
    else
      match MatchLine(ls[0])
      case Some(m) => [m] + ScanLines(ls[1..])
      case None => ScanLines(ls[1..])
  }

  /**
    The first identifiers of the matching lines, in line order: one per
    matching line, duplicates kept.
   */
  function Scan(text: string): seq<string> {
    ScanLines(Lines(text))
  }

  lemma {:induction false} ScanLinesMembership(ls: seq<string>, m: string)
    ensures m in ScanLines(ls) <==> exists line :: line in ls && Matches(line, m)
  {
    if ls != [] {
      ScanLinesMembership(ls[1..], m);
      MatchLineCorrect(ls[0], m);
      assert forall line :: line in ls <==> line == ls[0] || line in ls[1..];
    }
  }

  /** A name is scanned exactly when some line of the text matches with it. */
  lemma ScanMembership(text: string, m: string)
    ensures m in Scan(text) <==> exists line :: line in Lines(text) && Matches(line, m)
  {
    ScanLinesMembership(Lines(text), m);
  }

  lemma {:induction false} ScanLinesAppend(ls: seq<string>, line: string)
    ensures ScanLines(ls + [line]) == ScanLines(ls) + (match MatchLine(line) case Some(m) => [m] case None => [])
  {
    if ls != [] {
      assert (ls + [line])[1..] == ls[1..] + [line];
      ScanLinesAppend(ls[1..], line);
    } else {
      assert [line][1..] == [];
    }
  }

  /** Every scanned name is a non-empty identifier. */
  lemma {:induction false} ScanLinesIdentifiers(ls: seq<string>)
    ensures forall m :: m in ScanLines(ls) ==> m != [] && AllWord(m)
  {
    if ls != [] {
      ScanLinesIdentifiers(ls[1..]);
    }
  }

  // ---------------------------------------------------------------------------
  // Reserved words.

  datatype Dialect = Python | Rust

  /** The Python variant's reserved words, compared with the candidate lower-cased. */
  const PythonReserved: set<string> := {
    "module", "endmodule", "initial", "always", "assign", "wire", "reg",
    "integer", "input", "output", "inout", "parameter", "localparam",
    "begin", "end", "if", "else", "case", "casex", "casez", "default",
    "for", "while", "repeat", "forever", "task", "function", "and", "or",
    "not", "nand", "nor", "xor", "xnor", "buf", "bufif0", "bufif1",
    "notif0", "notif1", "posedge", "negedge"
  }

  /** The Rust variant's keywords, compared with the candidate as it is. */
  const RustKeywords: seq<string> := [
    "module", "initial", "always", "assign", "wire", "reg",
    "integer", "input", "output", "inout", "parameter"
  ]

  predicate IsReserved(d: Dialect, m: string) {
    match d
    case Python => Lower(m) in PythonReserved
    case Rust => m in RustKeywords
  }

  lemma LowerOfLower(m: string)
    requires forall x :: 0 <= x < |m| ==> !('A' <= m[x] <= 'Z')
    ensures Lower(m) == m
  {
  }

  /**
    Python's filter is the stricter one: a name the Rust variant rejects is
    rejected by the Python variant too.
   */
  lemma RustReservedIsPythonReserved(m: string)
    requires IsReserved(Rust, m)
    ensures IsReserved(Python, m)
  {
    var x :| 0 <= x < |RustKeywords| && RustKeywords[x] == m;
    LowerOfLower(m);
  }

  /**
    Case matters only to the Rust variant: `Wire` is a candidate there but
    reserved in the Python variant.
   */
  lemma CaseSensitivityDiffers()
    ensures IsReserved(Python, "Wire") && !IsReserved(Rust, "Wire")
  {
    assert Lower("Wire") == "wire";
  }
}
