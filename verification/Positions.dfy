/** The comma-separated positions field: written by joinStrings (internal/scoutbook/types.go), read back
    by strings.Split (internal/domain/rbac/reconcile.go). */
module Positions {

  const SEPARATOR := ", "

  predicate SeparatorAt(s: string, i: nat) {
    i + 1 < |s| && s[i] == ',' && s[i + 1] == ' '
  }

  /** The name does not contain the separator. */
  ghost predicate Clean(name: string) {
    forall i: nat :: !SeparatorAt(name, i)
  }

  /** Index of the first separator, or the length when there is none. */
  function FirstSeparator(s: string): (i: nat)
    ensures i <= |s|
    ensures i < |s| ==> SeparatorAt(s, i)
  {
    if s == "" then 0 else if SeparatorAt(s, 0) then 0 else 1 + FirstSeparator(s[1..])
  }

  /** strings.Split(s, ", "). */
  function Split(s: string): seq<string>
    decreases |s|
  {
    var i := FirstSeparator(s);
    if i < |s| then [s[..i]] + Split(s[i + 2..]) else [s]
  }

  function JoinWith(names: seq<string>, sep: string): string {
    if names == [] then ""
    else if |names| == 1 then names[0]
    else names[0] + sep + JoinWith(names[1..], sep)
  }

  function Join(names: seq<string>): string {
    JoinWith(names, SEPARATOR)
  }

  lemma {:induction false} JoinAppend(names: seq<string>, sep: string, name: string)
    requires names != []
    ensures JoinWith(names + [name], sep) == JoinWith(names, sep) + sep + name
  {
    if |names| == 1 {
      assert (names + [name])[1..] == [name];
    } else {
      assert (names + [name])[1..] == names[1..] + [name];
      JoinAppend(names[1..], sep, name);
    }
  }

  method JoinStrings(names: seq<string>, sep: string) returns (result: string)
    ensures result == JoinWith(names, sep)
  {
    if |names| == 0 {
      return "";
    }
    result := names[0];
    for i := 1 to |names|
      invariant result == JoinWith(names[..i], sep)
    {
      JoinAppend(names[..i], sep, names[i]);
      assert names[..i] + [names[i]] == names[..i + 1];
      result := result + sep + names[i];
    }
    assert names[..|names|] == names;
  }

  /** The first separator has no separator before it. */
  lemma {:induction false} FirstSeparatorIsFirst(s: string, k: nat)
    requires k < FirstSeparator(s)
    ensures !SeparatorAt(s, k)
  {
    if k > 0 {
      FirstSeparatorIsFirst(s[1..], k - 1);
    }
  }

  lemma {:induction false} FirstSeparatorAt(s: string, i: nat)
    requires SeparatorAt(s, i)
    requires forall k: nat | k < i :: !SeparatorAt(s, k)
    ensures FirstSeparator(s) == i
  {
    if i > 0 {
      assert !SeparatorAt(s, 0);
      forall k: nat | k < i - 1 ensures !SeparatorAt(s[1..], k) {
        assert !SeparatorAt(s, k + 1);
      }
      FirstSeparatorAt(s[1..], i - 1);
    }
  }

  lemma {:induction false} CleanHasNoSeparator(s: string)
    requires Clean(s)
    ensures FirstSeparator(s) == |s|
  {
  }

  /** No false match straddles the boundary between a name and the separator that follows it. */
  lemma SeparatorAfterName(name: string, rest: string)
    requires Clean(name)
    ensures FirstSeparator(name + SEPARATOR + rest) == |name|
  {
    var s := name + SEPARATOR + rest;
    assert s[|name|] == ',' && s[|name| + 1] == ' ';
    forall k: nat | k < |name| ensures !SeparatorAt(s, k) {
      assert s[k] == name[k];
      if k + 1 < |name| {
        assert s[k + 1] == name[k + 1] && !SeparatorAt(name, k);
      }
    }
    FirstSeparatorAt(s, |name|);
  }

  lemma {:induction false} SplitInvertsJoin(names: seq<string>)
    requires names != [] && forall n | n in names :: Clean(n)
    ensures Split(Join(names)) == names
  {
    if |names| == 1 {
      CleanHasNoSeparator(names[0]);
    } else {
      var rest := Join(names[1..]);
      SeparatorAfterName(names[0], rest);
      SplitInvertsJoin(names[1..]);
      var s := names[0] + SEPARATOR + rest;
      assert s[..|names[0]|] == names[0] && s[|names[0]| + 2..] == rest;
    }
  }

  lemma {:induction false} PiecesAreClean(s: string)
    ensures Split(s) != [] && forall n | n in Split(s) :: Clean(n)
    decreases |s|
  {
    var i := FirstSeparator(s);
    forall k: nat ensures !SeparatorAt(s[..i], k) {
      if k < i {
        FirstSeparatorIsFirst(s, k);
      }
    }
    if i < |s| {
      PiecesAreClean(s[i + 2..]);
    } else {
      assert s[..i] == s;
    }
  }

  /** Splitting inverts joining exactly for the non-empty lists of names that contain no separator. */
  lemma SplitInvertsJoinIff(names: seq<string>)
    ensures Split(Join(names)) == names <==> names != [] && forall n | n in names :: Clean(n)
  {
    PiecesAreClean(Join(names));
    if names != [] && forall n | n in names :: Clean(n) {
      SplitInvertsJoin(names);
    }
  }

  lemma Reassemble(s: string, i: nat)
    requires SeparatorAt(s, i)
    ensures s[..i] + SEPARATOR + s[i + 2..] == s
  {
  }

  lemma JoinCons(head: string, tail: seq<string>)
    requires tail != []
    ensures Join([head] + tail) == head + SEPARATOR + Join(tail)
  {
  }

  /** Joining inverts splitting for every string. */
  lemma {:induction false} JoinInvertsSplit(s: string)
    ensures Join(Split(s)) == s
    decreases |s|
  {
    var i := FirstSeparator(s);
    if i < |s| {
      var rest := s[i + 2..];
      JoinInvertsSplit(rest);
      PiecesAreClean(rest);
      JoinCons(s[..i], Split(rest));
      Reassemble(s, i);
    }
  }

  // ----- From the roster to the reconciler -----

  function NonEmpty(names: seq<string>): seq<string> {
    if names == [] then []
    else
      var rest := NonEmpty(names[..|names| - 1]);
      if names[|names| - 1] != "" then rest + [names[|names| - 1]] else rest
  }

  /** The positions field that decoding a roster member stores. */
  method DecodePositions(received: seq<string>) returns (positions: string)
    ensures positions == Join(NonEmpty(received))
  {
    var parts := [];
    for i := 0 to |received|
      invariant parts == NonEmpty(received[..i])
    {
      assert received[..i + 1][..i] == received[..i];
      if received[i] != "" {
        parts := parts + [received[i]];
      }
    }
    assert received[..|received|] == received;
    positions := JoinStrings(parts, ", ");
  }

  /** The set of names that reconciliation reads from the field. */
  function Targets(positions: string): set<string> {
    if positions == "" then {} else set n | n in Split(positions)
  }

  lemma {:induction false} NonEmptyMembers(names: seq<string>, n: string)
    ensures n in NonEmpty(names) <==> n != "" && n in names
  {
    if names != [] {
      assert names == names[..|names| - 1] + [names[|names| - 1]];
      NonEmptyMembers(names[..|names| - 1], n);
    }
  }

  lemma JoinIsEmpty(names: seq<string>)
    requires forall n | n in names :: n != ""
    ensures Join(names) == "" <==> names == []
  {
    if names != [] {
      assert names[0] in names;
    }
  }

  /** Reconciliation sees exactly the non-empty positions received, if and only if none contains the separator. */
  lemma TargetsAreReceivedIff(received: seq<string>)
    ensures Targets(Join(NonEmpty(received))) == (set n | n in received && n != "") <==>
              forall n | n in received :: Clean(n)
  {
    var names := NonEmpty(received);
    var sent := set n | n in received && n != "";
    forall n ensures n in names <==> n in sent {
      NonEmptyMembers(received, n);
    }
    JoinIsEmpty(names);
    PiecesAreClean(Join(names));
    if forall n | n in received :: Clean(n) {
      if names != [] {
        SplitInvertsJoin(names);
      }
    } else {
      var n :| n in received && !Clean(n);
      assert n in names;
      assert n in sent && n !in Targets(Join(names));
    }
  }

  /** The text as people see it. */
  lemma PositionsAsWritten()
    ensures Join(["Cook", "Scribe"]) == "Cook, Scribe" && Targets("") == {}
    ensures Targets("Cook, Scribe") == {"Cook", "Scribe"}
  {
    var names := ["Cook", "Scribe"];
    assert names[1..] == ["Scribe"];
    assert Join(names) == "Cook, Scribe";
    SplitInvertsJoin(names);
  }
}
