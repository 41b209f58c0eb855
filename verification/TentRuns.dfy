/** Which requests keep every tent legal, what overlapping ones do, which tents are offered, and what a toggle does. */
module TentRuns {
  import opened Common
  import opened Calendar
  import opened TentRules
  import opened Profiles
  import opened Names
  import opened Groups
  import opened StoreSpec
  import opened ServiceSpec
  import opened Logistics
  import TI = TentInvariants
  import DI = DutyInvariants

  // ----- Requests that leave the rules alone -----

  ghost predicate TentsLegalAt(profiles: map<Id, Profile>, w: World, e: Id)
    requires e in w.store.events
  {
    TI.LegalTents(profiles, w.store.events[e].start, w.maxAgeGap, SiblingsIn(w.connections), ListOf(w.store.tents, e))
  }

  ghost predicate TentsLegal(profiles: map<Id, Profile>, w: World) {
    forall e | e in w.store.events :: TentsLegalAt(profiles, w, e)
  }

  /** Requests that touch no tent, no event start and no rule. */
  lemma SameTentsLegal(profiles: map<Id, Profile>, w: World, s: Store)
    requires TentsLegal(profiles, w)
    requires s.tents == w.store.tents
    requires forall e | e in s.events && e in w.store.events :: s.events[e].start == w.store.events[e].start
    requires forall e | e in s.events && e !in w.store.events :: e !in s.tents
    ensures TentsLegal(profiles, w.(store := s))
  {
  }

  lemma RemoveKeepsLegal(profiles: map<Id, Profile>, w: World, s: Store, e: Id, p: Id)
    requires TentsLegal(profiles, w) && Safe(profiles, w.store, None)
    requires s.events == w.store.events && s.tents == RemoveTentMember(w.store, e, p).tents
    ensures TentsLegal(profiles, w.(store := s))
  {
    forall x | x in s.events ensures TentsLegalAt(profiles, w.(store := s), x) {
      assert TentsLegalAt(profiles, w, x);
      if x == e && e in w.store.tents {
        var gs := w.store.tents[e];
        FirstMatchSuffices(gs, p);
        TI.PullOutLegal(profiles, s.events[e].start, w.maxAgeGap, SiblingsIn(w.connections), gs, p);
      }
    }
  }

  /** What an assignment that changes anything has checked, and what it does. */
  lemma AssignmentMade(profiles: map<Id, Profile>, connections: seq<Connection>, s: Store, e: Id, t: Id, p: Id,
                       gap: int)
    requires AssignToTent(profiles, connections, s, e, t, p, gap).0 != s
    ensures e in s.events && p in profiles
    ensures var gs := ListOf(s.tents, e);
            var k := Find(gs, t);
            && k < |gs| && !Has(gs[k], p) && AllKnown(profiles, gs[k].members)
            && BlockedBy(profiles, connections, s.events[e].start, gap, gs[k].members, p) == []
            && AssignToTent(profiles, connections, s, e, t, p, gap).0 ==
               s.(tents := s.tents[e := PlaceAt(gs, k, p, ())])
  {
  }

  lemma AssignKeepsLegal(profiles: map<Id, Profile>, w: World, e: Id, t: Id, p: Id)
    requires TentsLegal(profiles, w) && Safe(profiles, w.store, None)
    ensures TentsLegal(profiles, w.(store := AssignToTent(profiles, w.connections, w.store, e, t, p, w.maxAgeGap).0))
  {
    var s := w.store;
    var s' := AssignToTent(profiles, w.connections, s, e, t, p, w.maxAgeGap).0;
    if s' != s {
      AssignmentMade(profiles, w.connections, s, e, t, p, w.maxAgeGap);
      var gs := ListOf(s.tents, e);
      var k := Find(gs, t);
      assert TentsLegalAt(profiles, w, e);
      TI.PlaceLegal(profiles, w.connections, s.events[e].start, w.maxAgeGap, gs, k, p);
      forall x | x in s'.events ensures TentsLegalAt(profiles, w.(store := s'), x) {
        assert TentsLegalAt(profiles, w, x);
      }
    }
  }

  lemma DeleteKeepsLegal(profiles: map<Id, Profile>, w: World, t: Id)
    requires TentsLegal(profiles, w)
    ensures TentsLegal(profiles, w.(store := DeleteTent(w.store, t).0))
  {
  }

  lemma CreateKeepsLegal(profiles: map<Id, Profile>, w: World, e: Id, newId: Id)
    requires TentsLegal(profiles, w)
    ensures TentsLegal(profiles, w.(store := CreateTent(w.store, e, newId).0))
  {
  }

  lemma WithdrawTents(profiles: map<Id, Profile>, s: Store, e: Id, p: Id)
    requires Safe(profiles, s, None) && e in s.events && p in profiles
    ensures HandleWithdraw(profiles, s, e, p).tents == RemoveTentMember(s, e, p).tents
    ensures HandleWithdraw(profiles, s, e, p).events == s.events
  {
    hide Safe, DropDuties, LeavePatrol, Without;
    var leaving := Some((e, p));
    WithdrawSafe(profiles, s, e, p);
    var s1 := Withdraw(s, e, p).0;
    DropDutiesSafe(profiles, s1, leaving, e, p);
    LeavePatrolSafe(profiles, DropDuties(s1, e, p), leaving, e, p);
  }

  lemma AfterSignUpTents(profiles: map<Id, Profile>, s: Store, e: Id, p: Id, newId: Id)
    ensures AfterSignUp(profiles, s, e, p, newId).0 == s.(patrols := AfterSignUp(profiles, s, e, p, newId).0.patrols)
  {
  }

  lemma HandleSignUpTents(profiles: map<Id, Profile>, s: Store, e: Id, p: Id, leads: bool, newId: Id)
    ensures HandleSignUp(profiles, s, e, p, leads, newId).tents == s.tents
    ensures HandleSignUp(profiles, s, e, p, leads, newId).events == s.events
  {
    hide AfterSignUp;
    var s1 := SignUp(profiles, s, e, p).0;
    AfterSignUpTents(profiles, s1, e, p, newId);
    AfterSignUpTents(profiles, AssignResponsibility(s1, e, p, SPL).0, e, p, newId);
  }

  lemma HandleCreateTents(profiles: map<Id, Profile>, s: Store, e: Id, info: EventInfo, creator: Option<Id>, newId: Id)
    ensures HandleCreate(profiles, s, e, info, creator, newId).tents == s.tents
    ensures HandleCreate(profiles, s, e, info, creator, newId).events == s.events[e := info]
  {
    hide AfterSignUp;
    if creator.Some? {
      var s1 := SignUp(profiles, CreateEvent(s, e, info), e, creator.value).0;
      AfterSignUpTents(profiles, s1, e, creator.value, newId);
      AfterSignUpTents(profiles, AssignResponsibility(s1, e, creator.value, Coordinator).0, e, creator.value, newId);
    }
  }

  lemma DutyCallsKeepTents(s: Store, e: Id, p: Id, r: Responsibility)
    ensures AssignResponsibility(s, e, p, r).0 == s.(duties := AssignResponsibility(s, e, p, r).0.duties)
    ensures RemoveResponsibility(s, e, p, r) == s.(duties := RemoveResponsibility(s, e, p, r).duties)
  {
  }

  lemma HandleToggleTents(s: Store, e: Id, p: Id, r: Responsibility)
    ensures HandleToggle(s, e, p, r).0 == s.(duties := HandleToggle(s, e, p, r).0.duties)
  {
    hide AssignResponsibility, RemoveResponsibility;
    DutyCallsKeepTents(s, e, p, r);
    var (s', reply) := AssignResponsibility(s, e, p, r);
    if reply.Failed? && reply.fault.SingletonConflict? {
      DutyCallsKeepTents(s', e, reply.fault.holder, r);
      DutyCallsKeepTents(RemoveResponsibility(s', e, reply.fault.holder, r), e, p, r);
    }
  }

  lemma PatrolRequestTents(profiles: map<Id, Profile>, w: World, op: Op)
    requires Safe(profiles, w.store, None)
    requires op.CreatePatrolOp? || op.DeletePatrolOp? || op.AssignPatrolOp? || op.RemovePatrolMemberOp?
          || op.SetCookOp? || op.ClearCookOp?
    ensures NextStore(profiles, w, op) == w.store.(patrols := NextStore(profiles, w, op).patrols)
  {
    if op.RemovePatrolMemberOp? && CookingOpen(w.store, op.event) {
      LeavePatrolSafe(profiles, w.store, None, op.event, op.profile);
    }
  }

  /** Requests about sign-up, responsibilities and cooking leave tents and start times alone. */
  lemma OthersKeepTents(profiles: map<Id, Profile>, w: World, op: Op)
    requires Safe(profiles, w.store, None)
    requires op.SignUpOp? || op.ToggleOp? || op.AddDriverOp? || op.RemoveDriverOp? || op.CreatePatrolOp?
          || op.DeletePatrolOp? || op.AssignPatrolOp? || op.RemovePatrolMemberOp? || op.SetCookOp? || op.ClearCookOp?
    ensures NextStore(profiles, w, op).tents == w.store.tents && NextStore(profiles, w, op).events == w.store.events
  {
    if op.SignUpOp? {
      HandleSignUpTents(profiles, w.store, op.event, op.profile, op.leads, op.newPatrol);
    } else if op.ToggleOp? {
      HandleToggleTents(w.store, op.event, op.profile, op.responsibility);
    } else if op.AddDriverOp? || op.RemoveDriverOp? {
    } else {
      PatrolRequestTents(profiles, w, op);
    }
  }

  lemma WithdrawKeepsLegal(profiles: map<Id, Profile>, w: World, e: Id, p: Id)
    requires TentsLegal(profiles, w) && Safe(profiles, w.store, None)
    ensures TentsLegal(profiles, w.(store := HandleWithdraw(profiles, w.store, e, p)))
  {
    var s' := HandleWithdraw(profiles, w.store, e, p);
    if e in w.store.events && p in profiles {
      WithdrawTents(profiles, w.store, e, p);
      RemoveKeepsLegal(profiles, w, s', e, p);
    }
  }

  lemma TentStepLegal(profiles: map<Id, Profile>, w: World, op: Op)
    requires TentsLegal(profiles, w) && Safe(profiles, w.store, None)
    requires op.CreateTentOp? || op.DeleteTentOp? || op.AssignTentOp?
    ensures TentsLegal(profiles, w.(store := NextStore(profiles, w, op)))
  {
    if op.CreateTentOp? {
      CreateKeepsLegal(profiles, w, op.event, op.newTent);
    } else if op.DeleteTentOp? {
      DeleteKeepsLegal(profiles, w, op.tent);
    } else {
      AssignKeepsLegal(profiles, w, op.event, op.tent, op.profile);
    }
  }

  lemma RemovalStepLegal(profiles: map<Id, Profile>, w: World, op: Op)
    requires TentsLegal(profiles, w) && Safe(profiles, w.store, None)
    requires op.RemoveTentMemberOp? || op.WithdrawOp?
    ensures TentsLegal(profiles, w.(store := NextStore(profiles, w, op)))
  {
    if op.WithdrawOp? {
      WithdrawKeepsLegal(profiles, w, op.event, op.profile);
    } else {
      RemoveKeepsLegal(profiles, w, RemoveTentMember(w.store, op.event, op.profile), op.event, op.profile);
    }
  }

  lemma EventStepLegal(profiles: map<Id, Profile>, w: World, op: Op)
    requires TentsLegal(profiles, w) && DrawsFresh(w, op)
    requires op.CreateEventOp? || op.DeleteEventOp?
    ensures TentsLegal(profiles, w.(store := NextStore(profiles, w, op)))
  {
    if op.CreateEventOp? {
      HandleCreateTents(profiles, w.store, op.event, op.info, op.creator, op.newPatrol);
    }
    SameTentsLegal(profiles, w, NextStore(profiles, w, op));
  }

  /** The request may move an event's start, change the connections or set the age limit. No tent is checked then. */
  predicate ChangesRules(op: Op) {
    op.EditEventOp? || op.AddConnectionOp? || op.SetStatusOp? || op.SetAgeGapOp?
  }

  /** Requests that leave event start times, connections and the age limit alone keep every tent legal. */
  lemma PlainStepLegal(profiles: map<Id, Profile>, w: World, op: Op)
    requires TentsLegal(profiles, w) && Safe(profiles, w.store, None) && DrawsFresh(w, op) && !ChangesRules(op)
    ensures TentsLegal(profiles, Next(profiles, w, op))
  {
    if op.CreateTentOp? || op.DeleteTentOp? || op.AssignTentOp? {
      TentStepLegal(profiles, w, op);
    } else if op.RemoveTentMemberOp? || op.WithdrawOp? {
      RemovalStepLegal(profiles, w, op);
    } else if op.CreateEventOp? || op.DeleteEventOp? {
      EventStepLegal(profiles, w, op);
    } else {
      OthersKeepTents(profiles, w, op);
      SameTentsLegal(profiles, w, NextStore(profiles, w, op));
    }
  }

  // ----- The check and the placement are two steps -----

  /** A placement keeps every tent legal exactly when the check would pass on the tent it is stored into, whatever an
      earlier check saw. */
  lemma PlacementLegalIff(profiles: map<Id, Profile>, w: World, e: Id, t: Id, p: Id)
    requires TentsLegal(profiles, w) && Safe(profiles, w.store, None)
    requires e in w.store.events && p in profiles && p in ListOf(w.store.attendees, e)
    requires var gs := ListOf(w.store.tents, e); var k := Find(gs, t);
             k < |gs| && !Has(gs[k], p) && AllKnown(profiles, gs[k].members)
    ensures var gs := ListOf(w.store.tents, e);
            TentsLegal(profiles, w.(store := AssignTentMember(profiles, w.store, e, t, p).0)) <==>
              BlockedBy(profiles, w.connections, w.store.events[e].start, w.maxAgeGap, gs[Find(gs, t)].members, p) == []
  {
    var gs := ListOf(w.store.tents, e);
    var k := Find(gs, t);
    var start, siblings := w.store.events[e].start, SiblingsIn(w.connections);
    var w' := w.(store := AssignTentMember(profiles, w.store, e, t, p).0);
    assert TentsLegalAt(profiles, w, e);
    if BlockedBy(profiles, w.connections, start, w.maxAgeGap, gs[k].members, p) == [] {
      TI.PlaceLegal(profiles, w.connections, start, w.maxAgeGap, gs, k, p);
      forall x | x in w'.store.events ensures TentsLegalAt(profiles, w', x) {
        assert TentsLegalAt(profiles, w, x);
      }
    }
    if TentsLegal(profiles, w') {
      assert TentsLegalAt(profiles, w', e);
      TI.TargetIsProspective(profiles, gs, k, p);
      assert TI.LegalTent(profiles, start, w.maxAgeGap, siblings, PlaceAt(gs, k, p, ())[k]);
      BlockingEmptyIffLegal(Campers(Prospective(profiles, gs[k].members, p), start), w.maxAgeGap, siblings);
    }
  }

  /** Two requests that are both checked before either is stored can fill a tent that the rules forbid. */
  lemma RacingAssignments(connections: seq<Connection>, gap: int)
    returns (profiles: map<Id, Profile>, s: Store, e: Id, t: Id, p: Id, q: Id)
    ensures Safe(profiles, s, None) && TentsLegal(profiles, World(s, connections, gap))
    ensures AssignToTent(profiles, connections, s, e, t, p, gap).1 == Accepted
    ensures AssignToTent(profiles, connections, s, e, t, q, gap).1 == Accepted
    ensures var s1 := AssignTentMember(profiles, s, e, t, p).0;
            !TentsLegal(profiles, World(AssignTentMember(profiles, s1, e, t, q).0, connections, gap))
  {
    var day := Instant(Date(2024, 6, 1), 0);
    var boy := Profile(7, "", "", "", "", "M", "", "", day, Youth, Active, None, "");
    var girl := Profile(8, "", "", "", "", "F", "", "", day, Youth, Active, None, "");
    profiles := map[7 := boy, 8 := girl];
    assert boy.gender != girl.gender by {
      assert boy.gender[0] != girl.gender[0];
    }
    var empty: Tent := Group(3, NextName(TENT_PREFIX, 1), (), []);
    s := Store(map[1 := EventInfo(day, false)], map[1 := [7, 8]], map[], map[], map[], map[1 := [empty]]);
    e, t, p, q := 1, 3, 7, 8;
    SmallStoreSafe(profiles, s, day, empty);
    EmptyTentLegal(profiles, World(s, connections, gap), e, empty);
    EmptyTentAccepts(profiles, connections, s, e, empty, p, gap);
    EmptyTentAccepts(profiles, connections, s, e, empty, q, gap);
    RaceMixesTent(profiles, connections, s, e, empty, p, q, gap);
  }

  lemma EmptyTentLegal(profiles: map<Id, Profile>, w: World, e: Id, g: Tent)
    requires w.store.events.Keys == {e} && ListOf(w.store.tents, e) == [g] && g.members == []
    ensures TentsLegal(profiles, w)
  {
    assert TentsLegalAt(profiles, w, e);
  }

  lemma RaceMixesTent(profiles: map<Id, Profile>, connections: seq<Connection>, s: Store, e: Id, g: Tent, p: Id, q: Id,
                      gap: int)
    requires e in s.events && {p, q} <= profiles.Keys && p in ListOf(s.attendees, e) && q in ListOf(s.attendees, e)
    requires ListOf(s.tents, e) == [g] && g.members == [] && profiles[p].gender != profiles[q].gender
    ensures var s1 := AssignTentMember(profiles, s, e, g.id, p).0;
            !TentsLegal(profiles, World(AssignTentMember(profiles, s1, e, g.id, q).0, connections, gap))
  {
    EmptyTentFilled(profiles, s, e, g, p, q);
    var s1 := AssignTentMember(profiles, s, e, g.id, p).0;
    var s2 := AssignTentMember(profiles, s1, e, g.id, q).0;
    MixedTentIsIllegal(profiles, World(s2, connections, gap), e);
  }

  lemma EmptyTentAccepts(profiles: map<Id, Profile>, connections: seq<Connection>, s: Store, e: Id, g: Tent, p: Id,
                         gap: int)
    requires TI.IsYouthIn(profiles, p) && e in s.events && p in ListOf(s.attendees, e)
    requires ListOf(s.tents, e) == [g] && g.members == []
    ensures AssignToTent(profiles, connections, s, e, g.id, p, gap).1 == Accepted
  {
    OneScoutFits(profiles, connections, s.events[e].start, gap, p);
    assert Find([g], g.id) == 0;
  }

  lemma EmptyTentFilled(profiles: map<Id, Profile>, s: Store, e: Id, g: Tent, p: Id, q: Id)
    requires e in s.events && {p, q} <= profiles.Keys && p in ListOf(s.attendees, e) && q in ListOf(s.attendees, e)
    requires ListOf(s.tents, e) == [g] && g.members == [] && p != q
    ensures var s1 := AssignTentMember(profiles, s, e, g.id, p).0;
            var s2 := AssignTentMember(profiles, s1, e, g.id, q).0;
            s2.events == s.events && ListOf(s2.tents, e) == [g.(members := [Member(p, ()), Member(q, ())])]
  {
    var one := g.(members := [Member(p, ())]);
    var two := g.(members := [Member(p, ()), Member(q, ())]);
    assert Find([g], g.id) == 0 && Find([one], g.id) == 0;
    assert PlaceAt([g], 0, p, ())[0] == one;
    assert PlaceAt([g], 0, p, ()) == [one];
    DropAbsent(one.members, q);
    assert PlaceAt([one], 0, q, ())[0] == two;
    assert PlaceAt([one], 0, q, ()) == [two];
  }

  lemma MixedTentIsIllegal(profiles: map<Id, Profile>, w: World, e: Id)
    requires e in w.store.events && |ListOf(w.store.tents, e)| > 0
    requires var ms := ListOf(w.store.tents, e)[0].members;
             |ms| == 2 && AllKnown(profiles, ms) && profiles[ms[0].profile].gender != profiles[ms[1].profile].gender
    ensures !TentsLegal(profiles, w)
  {
    var tent := ListOf(w.store.tents, e)[0];
    var campers := Campers(ScoutsOf(profiles, tent.members), w.store.events[e].start);
    assert campers[0].gender != campers[1].gender;
    assert !TI.LegalTent(profiles, w.store.events[e].start, w.maxAgeGap, SiblingsIn(w.connections), tent);
    assert !TentsLegalAt(profiles, w, e);
  }

  lemma OneScoutFits(profiles: map<Id, Profile>, connections: seq<Connection>, start: Instant, gap: int, p: Id)
    requires p in profiles
    ensures BlockedBy(profiles, connections, start, gap, [], p) == []
  {
    var campers := Campers(Prospective(profiles, [], p), start);
    assert |campers| == 1;
    BlockingEmptyIffLegal(campers, gap, SiblingsIn(connections));
  }

  lemma SmallStoreSafe(profiles: map<Id, Profile>, s: Store, day: Instant, empty: Tent)
    requires empty.members == [] && empty.name == NextName(TENT_PREFIX, 1)
    requires s == Store(map[1 := EventInfo(day, false)], map[1 := [7, 8]], map[], map[], map[], map[1 := [empty]])
    ensures Safe(profiles, s, None)
  {
    NumberInvertsNextName(TENT_PREFIX, 1);
    assert TI.TentsOk(profiles, [empty]) && ListsOk(profiles, s);
    assert AttendanceAt(s, 1, None) && GateAt(s, 1);
  }

  // ----- The tents offered are the tents that accept -----

  /** The tents, in list order, for which an assignment of the profile would be accepted. */
  ghost function AcceptingTents(profiles: map<Id, Profile>, connections: seq<Connection>, s: Store, e: Id, p: Id,
                                gap: int, gs: seq<Tent>, exclude: Option<Id>): seq<Tent>
  {
    if gs == [] then []
    else
      var last := gs[|gs| - 1];
      var rest := AcceptingTents(profiles, connections, s, e, p, gap, gs[..|gs| - 1], exclude);
      if exclude != Some(last.id) && AssignToTent(profiles, connections, s, e, last.id, p, gap).1 == Accepted
      then rest + [last] else rest
  }

  lemma OneTentOffered(profiles: map<Id, Profile>, connections: seq<Connection>, s: Store, e: Id, p: Id, gap: int,
                       k: nat)
    requires Safe(profiles, s, None) && e in s.events && TI.IsYouthIn(profiles, p) && p in ListOf(s.attendees, e)
    requires k < |ListOf(s.tents, e)| && !Has(ListOf(s.tents, e)[k], p)
    ensures var tent := ListOf(s.tents, e)[k];
            && AllKnown(profiles, tent.members)
            && (AssignToTent(profiles, connections, s, e, tent.id, p, gap).1 == Accepted <==>
                BlockedBy(profiles, connections, s.events[e].start, gap, tent.members, p) == [])
  {
    var gs := ListOf(s.tents, e);
    assert TI.TentsOk(profiles, gs);
    assert TI.AllYouths(profiles, gs[k]);
    assert Find(gs, gs[k].id) == k;
  }

  /** The hypotheses of the next lemma: a youth attendee who is in no tent but the excluded one. */
  ghost predicate MayMove(profiles: map<Id, Profile>, s: Store, e: Id, p: Id, exclude: Option<Id>) {
    && Safe(profiles, s, None)
    && e in s.events && TI.IsYouthIn(profiles, p) && p in ListOf(s.attendees, e)
    && forall i | 0 <= i < |ListOf(s.tents, e)| && Has(ListOf(s.tents, e)[i], p) ::
        exclude == Some(ListOf(s.tents, e)[i].id)
  }

  lemma TentMembersKnown(profiles: map<Id, Profile>, s: Store, e: Id)
    requires Safe(profiles, s, None)
    ensures forall exclude :: KnownBut(profiles, ListOf(s.tents, e), exclude)
  {
  }

  /** The offered tents are exactly those that would accept the assignment, in list order. */
  lemma {:induction false} OfferedTentsAccept(profiles: map<Id, Profile>, connections: seq<Connection>, s: Store, e: Id,
                                              p: Id, gap: int, gs: seq<Tent>, exclude: Option<Id>)
    requires MayMove(profiles, s, e, p, exclude)
    requires gs <= ListOf(s.tents, e)
    requires KnownBut(profiles, gs, exclude)
    ensures OpenTents(profiles, connections, s.events[e].start, gap, gs, p, exclude)
         == AcceptingTents(profiles, connections, s, e, p, gap, gs, exclude)
  {
    if gs != [] {
      var n := |gs| - 1;
      OfferedTentsAccept(profiles, connections, s, e, p, gap, gs[..n], exclude);
      assert gs[n] == ListOf(s.tents, e)[n];
      if exclude != Some(gs[n].id) {
        OneTentOffered(profiles, connections, s, e, p, gap, n);
      }
    }
  }

  /** So the whole list offered is the whole list that accepts; no lookup fails on the way. */
  lemma TargetsAreExact(profiles: map<Id, Profile>, connections: seq<Connection>, s: Store, e: Id, p: Id, gap: int,
                        exclude: Option<Id>)
    requires MayMove(profiles, s, e, p, exclude)
    ensures var gs := ListOf(s.tents, e);
            KnownBut(profiles, gs, exclude)
            && OpenTents(profiles, connections, s.events[e].start, gap, gs, p, exclude)
            == AcceptingTents(profiles, connections, s, e, p, gap, gs, exclude)
  {
    TentMembersKnown(profiles, s, e);
    OfferedTentsAccept(profiles, connections, s, e, p, gap, ListOf(s.tents, e), exclude);
  }

  // ----- Responsibilities -----

  /** A toggle by an attendee succeeds. It takes the responsibility away from a holder; a non-holder of a
      singleton becomes its sole holder; nothing else changes. */
  lemma ToggleMeaning(profiles: map<Id, Profile>, s: Store, e: Id, p: Id, r: Responsibility)
    requires Safe(profiles, s, None) && e in s.events && r != Driver && p in ListOf(s.attendees, e)
    ensures HandleToggle(s, e, p, r).1 == Done
    ensures var s' := HandleToggle(s, e, p, r).0;
            && s' == s.(duties := s.duties[e := ListOf(s'.duties, e)])
            && forall b :: b in ListOf(s'.duties, e) <==>
                 if Assignment(p, r) in ListOf(s.duties, e) then b in ListOf(s.duties, e) && b != Assignment(p, r)
                 else b == Assignment(p, r) || (b in ListOf(s.duties, e) && !(IsSingleton(r) && b.responsibility == r))
  {
    var ds := ListOf(s.duties, e);
    var k := Holder(ds, r);
    assert DI.DutiesOk(ds);
    if Assignment(p, r) in ds {
      RemoveResponsibilitySafe(profiles, s, None, e, p, r);
    } else if IsSingleton(r) && k < |ds| {
      ToggleReplaces(s, e, p, r);
    } else if IsSingleton(r) {
      assert forall b | b in ds :: b.responsibility != r;
    }
  }

  /** The remove-and-retry path of a toggle by a non-holder. */
  lemma ToggleReplaces(s: Store, e: Id, p: Id, r: Responsibility)
    requires e in s.events && IsSingleton(r) && p in ListOf(s.attendees, e)
    requires DI.DutiesOk(ListOf(s.duties, e)) && Holder(ListOf(s.duties, e), r) < |ListOf(s.duties, e)|
    requires Assignment(p, r) !in ListOf(s.duties, e)
    ensures var ds := ListOf(s.duties, e);
            var held := ds[Holder(ds, r)];
            && HandleToggle(s, e, p, r) == (s.(duties := s.duties[e := Without(ds, held) + [Assignment(p, r)]]), Done)
            && forall b :: b in Without(ds, held) <==> b in ds && b.responsibility != r
  {
    var ds := ListOf(s.duties, e);
    var k := Holder(ds, r);
    var held := Assignment(ds[k].profile, r);
    assert ds[k] == held && held in ds;
    DI.RemoveOk(ds, held);
    OnlyHolder(ds, k);
    var rest := Without(ds, held);
    NoHolderLeft(ds, rest, held);
    assert AssignResponsibility(s, e, p, r) == (s, Failed(SingletonConflict(held.profile)));
    var s1 := s.(duties := s.duties[e := rest]);
    assert RemoveResponsibility(s, e, held.profile, r) == s1;
    assert s1.duties[e := rest + [Assignment(p, r)]] == s.duties[e := rest + [Assignment(p, r)]];
    assert AssignResponsibility(s1, e, p, r) == (s1.(duties := s1.duties[e := rest + [Assignment(p, r)]]), Done);
  }

  lemma OnlyHolder(ds: seq<Assignment>, k: nat)
    requires DI.DutiesOk(ds) && k < |ds| && IsSingleton(ds[k].responsibility)
    ensures forall b | b in ds && b.responsibility == ds[k].responsibility :: b == ds[k]
  {
  }

  lemma NoHolderLeft(ds: seq<Assignment>, rest: seq<Assignment>, held: Assignment)
    requires forall b | b in ds && b.responsibility == held.responsibility :: b == held
    requires held !in rest && forall b | b != held :: b in rest <==> b in ds
    ensures Holder(rest, held.responsibility) == |rest|
  {
  }

  const JUNE_FIRST := Instant(Date(2024, 6, 1), 0)
  const GRUB_SCOUT := Profile(7, "", "", "", "", "", "", "", JUNE_FIRST, Youth, Active, None, "")
  const GRUB_STORE := Store(map[1 := EventInfo(JUNE_FIRST, false)], map[1 := [7]], map[],
                            map[1 := [Assignment(7, Other("grubmaster"))]], map[], map[])

  lemma GrubStoreSafe()
    ensures Safe(map[7 := GRUB_SCOUT], GRUB_STORE, None)
  {
    assert AttendanceAt(GRUB_STORE, 1, None) && GateAt(GRUB_STORE, 1);
  }

  /** A withdrawn profile may keep a free-text responsibility: the cascade removes the four fixed ones only. */
  lemma FreeTextDutySurvivesWithdrawal()
    ensures var profiles := map[7 := GRUB_SCOUT];
            var s' := HandleWithdraw(profiles, GRUB_STORE, 1, 7);
            && Safe(profiles, GRUB_STORE, None) && 1 in GRUB_STORE.events
            && Assignment(7, Other("grubmaster")) in ListOf(s'.duties, 1) && 7 !in ListOf(s'.attendees, 1)
  {
    GrubStoreSafe();
    hide Safe, HandleWithdraw;
    HandleWithdrawSafe(map[7 := GRUB_SCOUT], GRUB_STORE, 1, 7);
    assert Assignment(7, Other("grubmaster")) in ListOf(GRUB_STORE.duties, 1);
  }
}
