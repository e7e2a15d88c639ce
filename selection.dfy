/**
  The dependency list shown for confirmation: names with a check flag each,
  and the names that are checked.
 */
module Selection {
  import opened Text

  /** The names whose flag is set, in list order. */
  function Chosen(names: seq<string>, flags: seq<bool>): (r: seq<string>)
    requires |names| == |flags|
    ensures |r| <= |names|
  {
    if names == [] then []
    else (if flags[0] then [names[0]] else []) + Chosen(names[1..], flags[1..])
  }

  /** A name is chosen exactly when some entry carrying it is checked. */
  lemma {:induction false} ChosenMembership(names: seq<string>, flags: seq<bool>, n: string)
    requires |names| == |flags|
    ensures n in Chosen(names, flags) <==> exists i :: 0 <= i < |names| && flags[i] && names[i] == n
  {
    if names != [] {
      ChosenMembership(names[1..], flags[1..], n);
      if exists i :: 0 <= i < |names| && flags[i] && names[i] == n {
        var i :| 0 <= i < |names| && flags[i] && names[i] == n;
        if i > 0 { assert names[1..][i - 1] == n && flags[1..][i - 1]; }
      }
      if exists i :: 0 <= i < |names[1..]| && flags[1..][i] && names[1..][i] == n {
        var i :| 0 <= i < |names[1..]| && flags[1..][i] && names[1..][i] == n;
        assert flags[i + 1] && names[i + 1] == n;
      }
    }
  }

  /** With every flag set, every name is chosen, in list order. */
  lemma {:induction false} ChosenAll(names: seq<string>, flags: seq<bool>)
    requires |names| == |flags|
    requires forall i :: 0 <= i < |flags| ==> flags[i]
    ensures Chosen(names, flags) == names
  {
    if names != [] {
      ChosenAll(names[1..], flags[1..]);
    }
  }

  /** With no flag set, nothing is chosen. */
  lemma {:induction false} ChosenNone(names: seq<string>, flags: seq<bool>)
    requires |names| == |flags|
    requires forall i :: 0 <= i < |flags| ==> !flags[i]
    ensures Chosen(names, flags) == []
  {
    if names != [] {
      ChosenNone(names[1..], flags[1..]);
    }
  }

  /**
    Choosing keeps list order: from a sorted list the chosen names come out
    sorted, so they are the sorted list of the checked names.
   */
  lemma {:induction false} ChosenSorted(names: seq<string>, flags: seq<bool>)
    requires |names| == |flags|
    requires StrictlySorted(names)
    ensures StrictlySorted(Chosen(names, flags))
  {
    if names != [] {
      var rest := Chosen(names[1..], flags[1..]);
      ChosenSorted(names[1..], flags[1..]);
      forall j | 0 <= j < |rest| ensures Less(names[0], rest[j]) {
        ChosenMembership(names[1..], flags[1..], rest[j]);
        var i :| 0 <= i < |names[1..]| && flags[1..][i] && names[1..][i] == rest[j];
        assert names[i + 1] == rest[j];
      }
    }
  }
}
