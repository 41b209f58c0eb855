/** Tents of one event: youths only, nobody in two tents, and every tent legal. */
module TentInvariants {
  import opened Common
  import opened Calendar
  import opened TentRules
  import opened Profiles
  import opened Names
  import opened Groups
  import opened GroupInvariants
  import opened StoreSpec
  import opened ServiceSpec

  predicate IsYouthIn(profiles: map<Id, Profile>, p: Id) {
    p in profiles && profiles[p].memberType == Youth
  }

  ghost predicate AllYouths(profiles: map<Id, Profile>, g: Tent) {
    forall a | 0 <= a < |g.members| :: IsYouthIn(profiles, g.members[a].profile)
  }

  ghost predicate TentsOk(profiles: map<Id, Profile>, gs: seq<Tent>) {
    && Exclusive(gs)
    && DistinctNames(gs)
    && forall i | 0 <= i < |gs| :: AllYouths(profiles, gs[i]) && Numbered(TENT_PREFIX, gs[i].name)
  }

  ghost predicate LegalTent(profiles: map<Id, Profile>, start: Instant, gap: int, siblings: set<ScoutPair>, g: Tent) {
    AllKnown(profiles, g.members) && Legal(Campers(ScoutsOf(profiles, g.members), start), gap, siblings)
  }

  /** No tent of the event has a blocking violation. */
  ghost predicate LegalTents(profiles: map<Id, Profile>, start: Instant, gap: int, siblings: set<ScoutPair>,
                             gs: seq<Tent>) {
    forall i | 0 <= i < |gs| :: LegalTent(profiles, start, gap, siblings, gs[i])
  }

  // ----- Youths only, one tent each -----

  lemma PullOutOk(profiles: map<Id, Profile>, gs: seq<Tent>, p: Id)
    requires TentsOk(profiles, gs)
    ensures TentsOk(profiles, PullOut(gs, p))
  {
    PullOutExclusive(gs, p);
    forall i | 0 <= i < |gs| ensures AllYouths(profiles, PullOut(gs, p)[i]) {
      var a := DropFirstSplice(gs[i].members, p);
    }
  }

  lemma PlaceOk(profiles: map<Id, Profile>, gs: seq<Tent>, k: nat, p: Id)
    requires TentsOk(profiles, gs) && k < |gs| && IsYouthIn(profiles, p)
    ensures TentsOk(profiles, PlaceAt(gs, k, p, ()))
  {
    PullOutOk(profiles, gs, p);
    PlaceAtExclusive(gs, k, p, ());
    var pulled, after := PullOut(gs, p), PlaceAt(gs, k, p, ());
    assert AllYouths(profiles, pulled[k]);
    assert forall i | 0 <= i < |gs| && i != k :: after[i] == pulled[i];
  }

  lemma AppendEmptyOk(profiles: map<Id, Profile>, gs: seq<Tent>, g: Tent)
    requires TentsOk(profiles, gs) && g.members == []
    requires Numbered(TENT_PREFIX, g.name) && forall i | 0 <= i < |gs| :: gs[i].name != g.name
    ensures TentsOk(profiles, gs + [g])
  {
    AppendExclusive(gs, g);
  }

  lemma DropGroupOk(profiles: map<Id, Profile>, gs: seq<Tent>, id: Id)
    requires TentsOk(profiles, gs)
    ensures TentsOk(profiles, DropGroup(gs, id))
  {
    DropGroupExclusive(gs, id);
  }

  // ----- Legality -----

  /** The tent a scout leaves stays legal. */
  lemma PulledTentLegal(profiles: map<Id, Profile>, start: Instant, gap: int, siblings: set<ScoutPair>, g: Tent, p: Id)
    requires LegalTent(profiles, start, gap, siblings, g)
    ensures LegalTent(profiles, start, gap, siblings, g.(members := DropFirst(g.members, p)))
  {
    var ms, rest := g.members, DropFirst(g.members, p);
    var a := DropFirstSplice(ms, p);
    var before := Campers(ScoutsOf(profiles, ms), start);
    if a < |ms| {
      var after := Campers(ScoutsOf(profiles, rest), start);
      assert after == before[..a] + before[a + 1..];
      assert before == before[..a] + [before[a]] + before[a + 1..];
      LegalHereditary(before, after, gap, siblings);
    }
  }

  lemma PullOutLegal(profiles: map<Id, Profile>, start: Instant, gap: int, siblings: set<ScoutPair>, gs: seq<Tent>,
                     p: Id)
    requires LegalTents(profiles, start, gap, siblings, gs)
    ensures LegalTents(profiles, start, gap, siblings, PullOut(gs, p))
  {
    forall i | 0 <= i < |gs| ensures LegalTent(profiles, start, gap, siblings, PullOut(gs, p)[i]) {
      PulledTentLegal(profiles, start, gap, siblings, gs[i], p);
    }
  }

  /** The tent a scout joins ends as exactly the list that was validated. */
  lemma TargetIsProspective(profiles: map<Id, Profile>, gs: seq<Tent>, k: nat, p: Id)
    requires Exclusive(gs) && k < |gs| && AllKnown(profiles, gs[k].members) && p in profiles && !Has(gs[k], p)
    ensures AllKnown(profiles, PlaceAt(gs, k, p, ())[k].members)
    ensures ScoutsOf(profiles, PlaceAt(gs, k, p, ())[k].members) == Prospective(profiles, gs[k].members, p)
  {
    DropAbsent(gs[k].members, p);
    assert PlaceAt(gs, k, p, ())[k].members == gs[k].members + [Member(p, ())];
  }

  lemma PlaceLegal(profiles: map<Id, Profile>, connections: seq<Connection>, start: Instant, gap: int, gs: seq<Tent>,
                   k: nat, p: Id)
    requires Exclusive(gs) && k < |gs| && p in profiles && !Has(gs[k], p)
    requires LegalTents(profiles, start, gap, SiblingsIn(connections), gs)
    requires AllKnown(profiles, gs[k].members) && BlockedBy(profiles, connections, start, gap, gs[k].members, p) == []
    ensures LegalTents(profiles, start, gap, SiblingsIn(connections), PlaceAt(gs, k, p, ()))
  {
    var siblings := SiblingsIn(connections);
    PullOutLegal(profiles, start, gap, siblings, gs, p);
    TargetIsProspective(profiles, gs, k, p);
    BlockingEmptyIffLegal(Campers(Prospective(profiles, gs[k].members, p), start), gap, siblings);
    var pulled, after := PullOut(gs, p), PlaceAt(gs, k, p, ());
    assert forall i | 0 <= i < |gs| && i != k :: after[i] == pulled[i];
  }

  lemma MonotoneLegal(profiles: map<Id, Profile>, start: Instant, gap: int, gap': int, siblings: set<ScoutPair>,
                      siblings': set<ScoutPair>, gs: seq<Tent>)
    requires LegalTents(profiles, start, gap, siblings, gs) && gap <= gap' && siblings <= siblings'
    ensures LegalTents(profiles, start, gap', siblings', gs)
  {
  }

  /** Approving a connection only adds links, and siblings. */
  lemma {:induction false} ApprovalGrows(connections: seq<Connection>, i: nat)
    requires i < |connections|
    ensures var after := connections[i := connections[i].(status := Approved)];
            && (forall l | l in ApprovedLinks(connections) :: l in ApprovedLinks(after))
            && SiblingsIn(connections) <= SiblingsIn(after)
  {
    var n := |connections| - 1;
    var after := connections[i := connections[i].(status := Approved)];
    var rest, rest' := ApprovedLinks(connections[..n]), ApprovedLinks(after[..n]);
    var last := connections[n].link;
    if i == n {
      assert after[..n] == connections[..n];
      MoreLinksMoreSiblings(rest, [last]);
    } else {
      assert after[..n] == connections[..n][i := connections[i].(status := Approved)] && after[n] == connections[n];
      ApprovalGrows(connections[..n], i);
      if connections[n].status == Approved {
        SiblingsOfLast(rest, rest', last);
      }
    }
  }

  lemma SiblingsOfLast(links: seq<ParentLink>, more: seq<ParentLink>, last: ParentLink)
    requires (forall l | l in links :: l in more) && Siblings(links) <= Siblings(more)
    ensures Siblings(links + [last]) <= Siblings(more + [last])
  {
    forall pair | pair in Siblings(links + [last]) ensures pair in Siblings(more + [last]) {
      SiblingsAppend(links, last, pair);
      SiblingsAppend(more, last, pair);
      if NewSibling(links, last, pair) {
        NewSiblingStays(links, more, last, pair);
      }
    }
  }

  lemma NewSiblingStays(links: seq<ParentLink>, more: seq<ParentLink>, last: ParentLink, pair: ScoutPair)
    requires (forall l | l in links :: l in more) && NewSibling(links, last, pair)
    ensures NewSibling(more, last, pair)
  {
  }

  /** One more connection only adds siblings. */
  lemma SiblingsGrow(connections: seq<Connection>, c: Connection)
    ensures SiblingsIn(connections) <= SiblingsIn(connections + [c])
  {
    assert (connections + [c])[..|connections|] == connections;
    if c.status == Approved {
      MoreLinksMoreSiblings(ApprovedLinks(connections), [c.link]);
    }
  }
}

/** Responsibilities of one event: no duplicates and one holder per singleton. */
module DutyInvariants {
  import opened Common
  import opened StoreSpec

  ghost predicate DutiesOk(ds: seq<Assignment>) {
    && Distinct(ds)
    && forall i, j | 0 <= i < j < |ds| && IsSingleton(ds[i].responsibility) ::
        ds[i].responsibility != ds[j].responsibility
  }

  /** Holders of singleton responsibilities are among the given people. */
  ghost predicate HoldersWithin(ds: seq<Assignment>, people: seq<Id>) {
    forall i | 0 <= i < |ds| && IsSingleton(ds[i].responsibility) :: ds[i].profile in people
  }

  lemma {:induction false} WithoutSplice<T>(s: seq<T>, x: T) returns (i: nat)
    ensures i <= |s|
    ensures i < |s| ==> s[i] == x && Without(s, x) == s[..i] + s[i + 1..]
    ensures i == |s| ==> Without(s, x) == s && x !in s
  {
    if s == [] || s[0] == x {
      i := 0;
    } else {
      var j := WithoutSplice(s[1..], x);
      i := j + 1;
      if i < |s| {
        assert s[..i] + s[i + 1..] == [s[0]] + (s[1..][..j] + s[1..][j + 1..]);
      } else {
        assert s == [s[0]] + s[1..];
      }
    }
  }

  lemma {:induction false} WithoutOthers<T>(s: seq<T>, x: T, y: T)
    requires y != x
    ensures y in Without(s, x) <==> y in s
  {
    if s != [] && s[0] != x {
      WithoutOthers(s[1..], x, y);
      assert s == [s[0]] + s[1..];
    } else if s != [] {
      assert s == [x] + s[1..];
    }
  }

  lemma WithoutDistinct<T(!new)>(s: seq<T>, x: T)
    requires Distinct(s)
    ensures Distinct(Without(s, x)) && x !in Without(s, x)
  {
    var i := WithoutSplice(s, x);
    var r := Without(s, x);
    if i < |s| {
      forall a | 0 <= a < |r| ensures r[a] == s[if a < i then a else a + 1] != x {
      }
      forall a, b | 0 <= a < b < |r| ensures r[a] != r[b] {
        assert r[a] == s[if a < i then a else a + 1] && r[b] == s[if b < i then b else b + 1];
      }
    }
  }

  lemma RemoveOk(ds: seq<Assignment>, a: Assignment)
    requires DutiesOk(ds)
    ensures DutiesOk(Without(ds, a)) && a !in Without(ds, a)
    ensures forall b | b != a :: b in Without(ds, a) <==> b in ds
  {
    WithoutDistinct(ds, a);
    forall b | b != a ensures b in Without(ds, a) <==> b in ds {
      WithoutOthers(ds, a, b);
    }
    var i := WithoutSplice(ds, a);
  }

  lemma AddOk(ds: seq<Assignment>, a: Assignment)
    requires DutiesOk(ds) && a !in ds
    requires IsSingleton(a.responsibility) ==> Holder(ds, a.responsibility) == |ds|
    ensures DutiesOk(ds + [a])
  {
  }

  lemma HoldersWithinIn(ds: seq<Assignment>, people: seq<Id>, a: Assignment)
    requires HoldersWithin(ds, people) && a in ds && IsSingleton(a.responsibility)
    ensures a.profile in people
  {
  }
}
