/** When a scout is assigned to a tent or a profile to a patrol, and what that does. */
module AssignmentMeaning {
  import opened Common
  import opened Calendar
  import opened TentRules
  import opened Profiles
  import opened Groups
  import opened GroupInvariants
  import opened StoreSpec
  import opened ServiceSpec
  import opened Logistics
  import opened TableRefinement
  import TI = TentInvariants
  import PI = PatrolInvariants

  // ----- Tents -----

  /** The tent of the event with the identifier, if there is one. */
  ghost predicate TentIs(s: Store, e: Id, t: Id, g: Tent) {
    g in ListOf(s.tents, e) && g.id == t
  }

  /** A youth who attends a known event is assigned to a tent of that event if and only if it already sleeps there, or
      the tent with it in is legal: all of one gender, and every two siblings or close enough in age on the first day.
      */
  lemma TentAcceptsIff(profiles: map<Id, Profile>, connections: seq<Connection>, s: Store, e: Id, t: Id, p: Id,
                       gap: int, g: Tent)
    requires Safe(profiles, s, None) && e in s.events && TentIs(s, e, t, g)
    requires p in profiles && profiles[p].memberType == Youth && p in ListOf(s.attendees, e)
    ensures AllKnown(profiles, g.members)
    ensures var scouts := ScoutsOf(profiles, g.members) + [ScoutOf(profiles[p])];
            AssignToTent(profiles, connections, s, e, t, p, gap).1 == Accepted <==>
              Has(g, p) || Legal(Campers(scouts, s.events[e].start), gap, SiblingsIn(connections))
  {
    var gs := ListOf(s.tents, e);
    var k := Find(gs, t);
    FoundTent(profiles, s, e, t, g);
    if !Has(g, p) {
      BlockingEmptyIffLegal(Campers(Prospective(profiles, g.members, p), s.events[e].start), gap,
                            SiblingsIn(connections));
    }
  }

  lemma FoundTent(profiles: map<Id, Profile>, s: Store, e: Id, t: Id, g: Tent)
    requires Safe(profiles, s, None) && TentIs(s, e, t, g)
    ensures var gs := ListOf(s.tents, e);
            && Find(gs, t) < |gs| && gs[Find(gs, t)] == g && AllKnown(profiles, g.members)
            && ListsOk(profiles, s)
  {
    var gs := ListOf(s.tents, e);
    UniqueIdsLocal(s.tents, e);
    var i :| 0 <= i < |gs| && gs[i] == g;
    assert Find(gs, t) <= i;
    assert TI.TentsOk(profiles, gs) && TI.AllYouths(profiles, gs[i]);
  }

  /** An accepted assignment puts the scout into that tent and moves nobody else; any other changes nothing. */
  lemma TentAssignmentMeaning(profiles: map<Id, Profile>, connections: seq<Connection>, s: Store, e: Id, t: Id, p: Id,
                              gap: int)
    requires Safe(profiles, s, None)
    ensures var (s', outcome) := AssignToTent(profiles, connections, s, e, t, p, gap);
            && s' == s.(tents := s'.tents)
            && (outcome == Accepted ==> RowsOf(s'.tents) == UpsertRow(RowsOf(s.tents), e, p, t, ()))
            && (outcome != Accepted ==> s' == s)
  {
    var gs := ListOf(s.tents, e);
    var k := Find(gs, t);
    TentListsOk(profiles, s, e);
    hide Safe, RowsOf, BlockedBy, ListsOk, Exclusive, PlaceAt;
    if AssignToTent(profiles, connections, s, e, t, p, gap).1 == Accepted {
      if Has(gs[k], p) {
        AlreadyThere(s.tents, e, k, p);
      } else {
        AssignTentMemberRefines(profiles, s, e, t, p);
      }
    }
  }

  lemma TentListsOk(profiles: map<Id, Profile>, s: Store, e: Id)
    requires Safe(profiles, s, None)
    ensures ListsOk(profiles, s) && Exclusive(ListOf(s.tents, e)) && Exclusive(ListOf(s.patrols, e))
  {
    ListsAreWell(profiles, s);
    WellListedAt(s.tents, e);
    WellListedAt(s.patrols, e);
  }

  lemma AlreadyThere(m: map<Id, seq<Tent>>, e: Id, k: nat, p: Id)
    requires Exclusive(ListOf(m, e)) && k < |ListOf(m, e)| && Has(ListOf(m, e)[k], p)
    ensures UpsertRow(RowsOf(m), e, p, ListOf(m, e)[k].id, ()) == RowsOf(m)
  {
    RowInTent(ListOf(m, e), k, p);
    RowsMatch(m, e, p);
    hide RowsOf, TableOf, Exclusive, Has;
    WriteBack(RowsOf(m), (e, p), (ListOf(m, e)[k].id, ()));
  }

  lemma RowInTent(gs: seq<Tent>, k: nat, p: Id)
    requires Exclusive(gs) && k < |gs| && Has(gs[k], p)
    ensures p in TableOf(gs) && TableOf(gs)[p] == (gs[k].id, ())
  {
    RowAt(gs, k, p);
    TableHolds(gs, p);
    hide TableOf, Exclusive;
    var row := TableOf(gs)[p];
    var (id, unit) := row;
    assert row == (id, unit) && unit == ();
  }

  lemma WriteBack<F>(rows: Rows<F>, key: (Id, Id), row: (Id, F))
    requires key in rows && rows[key] == row
    ensures rows[key := row] == rows
  {
  }

  /** Adults, unknown profiles, unknown events and tents of other events are refused. */
  lemma TentAssignmentRefusals(profiles: map<Id, Profile>, connections: seq<Connection>, s: Store, e: Id, t: Id, p: Id,
                               gap: int)
    ensures var outcome := AssignToTent(profiles, connections, s, e, t, p, gap).1;
            if p !in profiles then outcome == Refused(ProfileNotFound)
            else if profiles[p].memberType == Adult then outcome == Refused(AdultInTent)
            else if e !in s.events then outcome == Refused(EventNotFound)
            else (forall g :: !TentIs(s, e, t, g)) ==> outcome == Refused(TentNotFound)
  {
    var gs := ListOf(s.tents, e);
    assert Find(gs, t) < |gs| ==> TentIs(s, e, t, gs[Find(gs, t)]);
  }

  // ----- Patrols -----

  /** A profile is assigned to a patrol of a known event if and only if it attends and is no adult or the patrol is
      that of the adults. It is then in that patrol as a non-cook and nobody else has moved; otherwise nothing changes.
      */
  lemma PatrolAssignmentMeaning(profiles: map<Id, Profile>, s: Store, e: Id, g: Id, p: Id)
    requires Safe(profiles, s, None)
    ensures var (s', reply) := AssignToPatrol(profiles, s, e, g, p);
            && s' == s.(patrols := s'.patrols)
            && (reply == Done <==>
                  && e in s.events && p in profiles && p in ListOf(s.attendees, e)
                  && exists x :: x in ListOf(s.patrols, e) && x.id == g && (profiles[p].memberType == Adult ==> x.kind))
            && (if reply == Done then RowsOf(s'.patrols) == UpsertRow(RowsOf(s.patrols), e, p, g, false) else s' == s)
  {
    var gs := ListOf(s.patrols, e);
    var k := Find(gs, g);
    TentListsOk(profiles, s, e);
    PatrolFound(profiles, s, e, g);
    hide Safe, RowsOf, ListsOk, Exclusive, PlaceAt;
    if e in s.events && p in profiles && p in ListOf(s.attendees, e) {
      AssignPatrolMemberRefines(profiles, s, e, g, p);
    }
    assert k < |gs| ==> gs[k] in gs;
  }

  lemma PatrolFound(profiles: map<Id, Profile>, s: Store, e: Id, g: Id)
    requires Safe(profiles, s, None)
    ensures var gs := ListOf(s.patrols, e);
            forall x | x in gs && x.id == g :: Find(gs, g) < |gs| && gs[Find(gs, g)] == x
  {
    var gs := ListOf(s.patrols, e);
    UniqueIdsLocal(s.patrols, e);
    forall x | x in gs && x.id == g ensures Find(gs, g) < |gs| && gs[Find(gs, g)] == x {
      var i :| 0 <= i < |gs| && gs[i] == x;
      assert Find(gs, g) <= i;
    }
  }
}
