/** Shared vocabulary: identifiers, optional values and list lookups that default to empty. */
module Common {

  /** Record identifiers. The program uses random UUID strings; only equality and the total
      order used for normalising pairs matter, so integers stand for them. */
  type Id = int

  datatype Option<+T> = None | Some(value: T)

  /** Reading a missing key of a Go map of slices yields the empty slice. */
  function ListOf<T>(m: map<Id, seq<T>>, k: Id): seq<T> {
    if k in m then m[k] else []
  }

  ghost predicate Distinct<T(!new)>(s: seq<T>) {
    forall i, j | 0 <= i < j < |s| :: s[i] != s[j]
  }

  /** The key a Go map iteration yields next: any key still to be visited. */
  method NextKey<T>(keys: set<T>) returns (k: T)
    requires keys != {}
    ensures k in keys
  {
    k :| k in keys;
  }

  /** A set that is not empty has an element, for proofs. */
  lemma ElementOf<T>(s: set<T>) returns (x: T)
    requires s != {}
    ensures x in s
  {
    x :| x in s;
  }

  lemma SubsetSize<T>(part: set<T>, all: set<T>)
    requires part <= all
    ensures |part| <= |all|
  {
    assert all == part + (all - part);
  }

  lemma {:induction false} AboveAll(used: set<Id>) returns (bound: Id)
    ensures forall k | k in used :: k < bound
  {
    if used == {} {
      bound := 0;
    } else {
      var k := ElementOf(used);
      var b := AboveAll(used - {k});
      bound := if b <= k then k + 1 else b;
      forall j | j in used ensures j < bound {
        assert j == k || j in used - {k};
      }
    }
  }

  /** A random UUID: some identifier that is not in use. */
  method NewId(used: set<Id>) returns (id: Id)
    ensures id !in used
  {
    ghost var bound := AboveAll(used);
    assert bound !in used;
    id :| id !in used;
  }
}
