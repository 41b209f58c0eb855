/** Safety of whole runs of requests against the event store. */
module Logistics {
  import opened Common
  import opened Profiles
  import opened Names
  import opened Groups
  import opened StoreSpec
  import opened ServiceSpec
  import opened GroupInvariants
  import PI = PatrolInvariants
  import TI = TentInvariants
  import DI = DutyInvariants

  // ----- The invariant -----

  /** Every list is well formed, whoever is signed up. */
  ghost predicate ListsOk(profiles: map<Id, Profile>, s: Store) {
    && UniqueIds(s.tents) && UniqueIds(s.patrols)
    && (forall e | e in s.tents :: TI.TentsOk(profiles, s.tents[e]))
    && (forall e | e in s.patrols :: PI.PatrolsOk(profiles, s.patrols[e]))
    && (forall e | e in s.duties :: DI.DutiesOk(s.duties[e]))
    && (forall e | e in s.attendees :: Distinct(s.attendees[e]))
  }

  /** The attendees of an event, and the profile that a running withdrawal is still removing. */
  function Present(s: Store, e: Id, leaving: Option<(Id, Id)>): seq<Id> {
    ListOf(s.attendees, e) + if leaving.Some? && leaving.value.0 == e then [leaving.value.1] else []
  }

  ghost predicate AttendanceAt(s: Store, e: Id, leaving: Option<(Id, Id)>) {
    && Within(ListOf(s.tents, e), Present(s, e, leaving))
    && Within(ListOf(s.patrols, e), Present(s, e, leaving))
    && DI.HoldersWithin(ListOf(s.duties, e), Present(s, e, leaving))
  }

  /** Cooking disabled means no patrols. */
  ghost predicate GateAt(s: Store, e: Id)
    requires e in s.events
  {
    !s.events[e].cooking ==> ListOf(s.patrols, e) == []
  }

  ghost predicate Safe(profiles: map<Id, Profile>, s: Store, leaving: Option<(Id, Id)>) {
    && ListsOk(profiles, s)
    && forall e | e in s.events :: AttendanceAt(s, e, leaving) && GateAt(s, e)
  }

  // ----- Changing one component -----

  lemma TentMapSafe(profiles: map<Id, Profile>, s: Store, leaving: Option<(Id, Id)>, m: map<Id, seq<Tent>>)
    requires Safe(profiles, s, leaving) && UniqueIds(m)
    requires forall e | e in m :: TI.TentsOk(profiles, m[e]) && (e in s.events ==> Within(m[e], Present(s, e, leaving)))
    ensures Safe(profiles, s.(tents := m), leaving)
  {
  }

  lemma PatrolMapSafe(profiles: map<Id, Profile>, s: Store, leaving: Option<(Id, Id)>, m: map<Id, seq<CookingPatrol>>)
    requires Safe(profiles, s, leaving) && UniqueIds(m)
    requires forall e | e in m ::
               PI.PatrolsOk(profiles, m[e]) && (e in s.events ==> Within(m[e], Present(s, e, leaving)))
    requires forall e | e in m && e in s.events && !s.events[e].cooking :: m[e] == []
    ensures Safe(profiles, s.(patrols := m), leaving)
  {
  }

  lemma DutyListSafe(profiles: map<Id, Profile>, s: Store, leaving: Option<(Id, Id)>, e: Id, ds: seq<Assignment>)
    requires Safe(profiles, s, leaving) && DI.DutiesOk(ds)
    requires e in s.events ==> DI.HoldersWithin(ds, Present(s, e, leaving))
    ensures Safe(profiles, s.(duties := s.duties[e := ds]), leaving)
  {
  }

  // ----- Repository steps: tents -----

  lemma TentListSafe(profiles: map<Id, Profile>, s: Store, leaving: Option<(Id, Id)>, e: Id, gs: seq<Tent>)
    requires Safe(profiles, s, leaving) && TI.TentsOk(profiles, gs) && UniqueIds(s.tents[e := gs])
    requires e in s.events ==> Within(gs, Present(s, e, leaving))
    ensures Safe(profiles, s.(tents := s.tents[e := gs]), leaving)
  {
  }

  lemma CreateTentSafe(profiles: map<Id, Profile>, s: Store, leaving: Option<(Id, Id)>, e: Id, newId: Id)
    requires Safe(profiles, s, leaving) && !Known(s.tents, newId)
    requires Highest(TENT_PREFIX, ListOf(s.tents, e)) < INT_MAX
    ensures Safe(profiles, CreateTent(s, e, newId).0, leaving)
  {
    if e in s.events {
      var gs := ListOf(s.tents, e);
      var g := Group(newId, FreshName(TENT_PREFIX, gs), (), []);
      UniqueIdsAppend(s.tents, e, g);
      FreshNameIsNew(TENT_PREFIX, gs);
      TI.AppendEmptyOk(profiles, gs, g);
      assert AttendanceAt(s, e, leaving);
      assert Within(gs + [g], Present(s, e, leaving));
      TentListSafe(profiles, s, leaving, e, gs + [g]);
    }
  }

  lemma DeleteTentSafe(profiles: map<Id, Profile>, s: Store, leaving: Option<(Id, Id)>, t: Id)
    requires Safe(profiles, s, leaving)
    ensures Safe(profiles, DeleteTent(s, t).0, leaving)
  {
    var m := DropGroupIn(s.tents, t);
    UniqueIdsDropGroup(s.tents, t);
    forall e | e in m ensures TI.TentsOk(profiles, m[e]) && (e in s.events ==> Within(m[e], Present(s, e, leaving))) {
      TI.DropGroupOk(profiles, s.tents[e], t);
      assert e in s.events ==> AttendanceAt(s, e, leaving);
    }
    TentMapSafe(profiles, s, leaving, m);
  }

  lemma AssignTentMemberSafe(profiles: map<Id, Profile>, s: Store, e: Id, t: Id, p: Id)
    requires Safe(profiles, s, None) && TI.IsYouthIn(profiles, p)
    ensures Safe(profiles, AssignTentMember(profiles, s, e, t, p).0, None)
  {
    var gs := ListOf(s.tents, e);
    var k := Find(gs, t);
    if e in s.events && k < |gs| && p in ListOf(s.attendees, e) {
      var after := PlaceAt(gs, k, p, ());
      TI.PlaceOk(profiles, gs, k, p);
      UniqueIdsSameShape(s.tents, e, after);
      assert AttendanceAt(s, e, None);
      PlaceWithin(gs, k, p, (), Present(s, e, None));
      TentListSafe(profiles, s, None, e, after);
    }
  }

  lemma RemoveTentMemberSafe(profiles: map<Id, Profile>, s: Store, leaving: Option<(Id, Id)>, e: Id, p: Id)
    requires Safe(profiles, s, leaving)
    ensures Safe(profiles, RemoveTentMember(s, e, p), leaving)
    ensures forall i | 0 <= i < |ListOf(RemoveTentMember(s, e, p).tents, e)| ::
              !Has(ListOf(RemoveTentMember(s, e, p).tents, e)[i], p)
  {
    if e in s.tents {
      var gs := s.tents[e];
      FirstMatchSuffices(gs, p);
      TI.PullOutOk(profiles, gs, p);
      UniqueIdsSameShape(s.tents, e, PullOut(gs, p));
      if e in s.events {
        assert AttendanceAt(s, e, leaving);
        RemoveWithin(gs, p, Present(s, e, leaving), Present(s, e, leaving));
      }
      PullOutExclusive(gs, p);
      TentListSafe(profiles, s, leaving, e, PullOut(gs, p));
    }
  }

  // ----- Repository steps: cooking patrols -----

  lemma PatrolListSafe(profiles: map<Id, Profile>, s: Store, leaving: Option<(Id, Id)>, e: Id, gs: seq<CookingPatrol>)
    requires Safe(profiles, s, leaving) && PI.PatrolsOk(profiles, gs) && UniqueIds(s.patrols[e := gs])
    requires e in s.events ==> Within(gs, Present(s, e, leaving)) && (s.events[e].cooking || gs == [])
    ensures Safe(profiles, s.(patrols := s.patrols[e := gs]), leaving)
  {
    forall x | x in s.patrols && x in s.events
      ensures Within(s.patrols[x], Present(s, x, leaving)) && (s.events[x].cooking || s.patrols[x] == [])
    {
      assert AttendanceAt(s, x, leaving) && GateAt(s, x);
    }
    PatrolMapSafe(profiles, s, leaving, s.patrols[e := gs]);
  }

  lemma EmptyPatrolsOk(profiles: map<Id, Profile>)
    ensures PI.PatrolsOk(profiles, [])
  {
  }

  lemma CreatePatrolSafe(profiles: map<Id, Profile>, s: Store, leaving: Option<(Id, Id)>, e: Id, isAdult: bool,
                         newId: Id)
    requires Safe(profiles, s, leaving) && !Known(s.patrols, newId) && CookingOpen(s, e)
    requires isAdult || Highest(PATROL_PREFIX, ListOf(s.patrols, e)) < INT_MAX
    ensures Safe(profiles, CreateCookingPatrol(s, e, isAdult, newId).0, leaving)
  {
    var gs := ListOf(s.patrols, e);
    if !(isAdult && HasAdultPatrol(gs)) {
      EmptyPatrolsOk(profiles);
      var g := Group(newId, if isAdult then ADULTS_NAME else FreshName(PATROL_PREFIX, gs), isAdult, []);
      UniqueIdsAppend(s.patrols, e, g);
      PI.NewPatrolName(profiles, gs, isAdult, g.name);
      PI.AppendEmptyOk(profiles, gs, g);
      assert AttendanceAt(s, e, leaving);
      PatrolListSafe(profiles, s, leaving, e, gs + [g]);
    }
  }

  lemma DeletePatrolSafe(profiles: map<Id, Profile>, s: Store, leaving: Option<(Id, Id)>, g: Id)
    requires Safe(profiles, s, leaving)
    ensures Safe(profiles, DeleteCookingPatrol(s, g).0, leaving)
  {
    var m := DropGroupIn(s.patrols, g);
    UniqueIdsDropGroup(s.patrols, g);
    forall e | e in m
      ensures PI.PatrolsOk(profiles, m[e])
      ensures e in s.events ==> Within(m[e], Present(s, e, leaving)) && (!s.events[e].cooking ==> m[e] == [])
    {
      PI.DropGroupOk(profiles, s.patrols[e], g);
      assert e in s.events ==> AttendanceAt(s, e, leaving) && GateAt(s, e);
    }
    PatrolMapSafe(profiles, s, leaving, m);
  }

  lemma AssignPatrolMemberSafe(profiles: map<Id, Profile>, s: Store, e: Id, g: Id, p: Id)
    requires Safe(profiles, s, None)
    requires var gs := ListOf(s.patrols, e); var k := Find(gs, g); k < |gs| ==> gs[k].kind || !IsAdultIn(profiles, p)
    ensures Safe(profiles, AssignCookingPatrolMember(profiles, s, e, g, p).0, None)
  {
    var gs := ListOf(s.patrols, e);
    var k := Find(gs, g);
    if e in s.events && k < |gs| && p in ListOf(s.attendees, e) {
      PI.PlaceOk(profiles, gs, k, p);
      UniqueIdsSameShape(s.patrols, e, PlaceAt(gs, k, p, false));
      assert AttendanceAt(s, e, None) && GateAt(s, e);
      PlaceWithin(gs, k, p, false, Present(s, e, None));
      PatrolListSafe(profiles, s, None, e, PlaceAt(gs, k, p, false));
    }
  }

  lemma RemovePatrolMemberSafe(profiles: map<Id, Profile>, s: Store, leaving: Option<(Id, Id)>, e: Id, p: Id)
    requires Safe(profiles, s, leaving)
    ensures Safe(profiles, RemoveCookingPatrolMember(s, e, p), leaving)
    ensures forall i | 0 <= i < |ListOf(RemoveCookingPatrolMember(s, e, p).patrols, e)| ::
              !Has(ListOf(RemoveCookingPatrolMember(s, e, p).patrols, e)[i], p)
  {
    if e in s.patrols {
      var gs := s.patrols[e];
      FirstMatchSuffices(gs, p);
      PI.PullOutOk(profiles, gs, p);
      UniqueIdsSameShape(s.patrols, e, PullOut(gs, p));
      if e in s.events {
        assert AttendanceAt(s, e, leaving) && GateAt(s, e);
        RemoveWithin(gs, p, Present(s, e, leaving), Present(s, e, leaving));
      }
      PullOutExclusive(gs, p);
      PatrolListSafe(profiles, s, leaving, e, PullOut(gs, p));
    }
  }

  lemma ReflagWithin(gs: seq<CookingPatrol>, id: Id, only: Option<Id>, people: seq<Id>)
    requires Within(gs, people)
    ensures Within(ReflagGroup(gs, id, only), people)
  {
  }

  lemma SetCookSafe(profiles: map<Id, Profile>, s: Store, leaving: Option<(Id, Id)>, e: Id, g: Id, p: Id)
    requires Safe(profiles, s, leaving)
    ensures Safe(profiles, SetCookingPatrolCook(s, e, g, p).0, leaving)
  {
    var gs := ListOf(s.patrols, e);
    if Find(gs, g) < |gs| {
      PI.ReflagOk(profiles, gs, g, Some(p));
      UniqueIdsSameShape(s.patrols, e, ReflagGroup(gs, g, Some(p)));
      if e in s.events {
        assert AttendanceAt(s, e, leaving) && GateAt(s, e);
        ReflagWithin(gs, g, Some(p), Present(s, e, leaving));
      }
      PatrolListSafe(profiles, s, leaving, e, ReflagGroup(gs, g, Some(p)));
    }
  }

  lemma UniqueIdsClearCook(m: map<Id, seq<CookingPatrol>>, g: Id)
    requires UniqueIds(m)
    ensures UniqueIds(ClearCookIn(m, g))
  {
  }

  lemma ClearCookSafe(profiles: map<Id, Profile>, s: Store, leaving: Option<(Id, Id)>, g: Id)
    requires Safe(profiles, s, leaving)
    ensures Safe(profiles, ClearCookingPatrolCook(s, g), leaving)
  {
    var m := ClearCookIn(s.patrols, g);
    UniqueIdsClearCook(s.patrols, g);
    forall e | e in m
      ensures PI.PatrolsOk(profiles, m[e])
      ensures e in s.events ==> Within(m[e], Present(s, e, leaving)) && (!s.events[e].cooking ==> m[e] == [])
    {
      PI.ReflagOk(profiles, s.patrols[e], g, None);
      if e in s.events {
        assert AttendanceAt(s, e, leaving) && GateAt(s, e);
        ReflagWithin(s.patrols[e], g, None, Present(s, e, leaving));
      }
    }
    PatrolMapSafe(profiles, s, leaving, m);
  }

  lemma {:induction false} ClearCooksHeldSafe(profiles: map<Id, Profile>, s: Store, leaving: Option<(Id, Id)>,
                                              listed: seq<CookingPatrol>, p: Id)
    requires Safe(profiles, s, leaving)
    ensures Safe(profiles, ClearCooksHeld(s, listed, p), leaving)
    ensures ClearCooksHeld(s, listed, p) == s.(patrols := ClearCooksHeld(s, listed, p).patrols)
  {
    if listed != [] {
      var n := |listed| - 1;
      ClearCooksHeldSafe(profiles, s, leaving, listed[..n], p);
      if HoldsCook(listed[n], p) {
        ClearCookSafe(profiles, ClearCooksHeld(s, listed[..n], p), leaving, listed[n].id);
      }
    }
  }

  lemma LeavePatrolSafe(profiles: map<Id, Profile>, s: Store, leaving: Option<(Id, Id)>, e: Id, p: Id)
    requires Safe(profiles, s, leaving) && e in s.events
    ensures Safe(profiles, LeavePatrol(s, e, p).0, leaving)
    ensures LeavePatrol(s, e, p).0 == s.(patrols := LeavePatrol(s, e, p).0.patrols)
    ensures forall i | 0 <= i < |ListOf(LeavePatrol(s, e, p).0.patrols, e)| ::
              !Has(ListOf(LeavePatrol(s, e, p).0.patrols, e)[i], p)
  {
    var listed := ListOf(s.patrols, e);
    ClearCooksHeldSafe(profiles, s, leaving, listed, p);
    RemovePatrolMemberSafe(profiles, ClearCooksHeld(s, listed, p), leaving, e, p);
  }

  // ----- Repository steps: responsibilities, attendance and events -----

  lemma AssignResponsibilitySafe(profiles: map<Id, Profile>, s: Store, e: Id, p: Id, r: Responsibility)
    requires Safe(profiles, s, None)
    requires IsSingleton(r) ==> p in ListOf(s.attendees, e)
    ensures Safe(profiles, AssignResponsibility(s, e, p, r).0, None)
  {
    var ds := ListOf(s.duties, e);
    var a := Assignment(p, r);
    if Holder(ds, r) < |ds| && ds[Holder(ds, r)].profile == p {
      assert ds[Holder(ds, r)] == a;
    }
    if AssignResponsibility(s, e, p, r).0 != s {
      assert AttendanceAt(s, e, None);
      DI.AddOk(ds, a);
      DutyListSafe(profiles, s, None, e, ds + [a]);
    }
  }

  lemma RemoveResponsibilitySafe(profiles: map<Id, Profile>, s: Store, leaving: Option<(Id, Id)>, e: Id, p: Id,
                                 r: Responsibility)
    requires Safe(profiles, s, leaving)
    ensures Safe(profiles, RemoveResponsibility(s, e, p, r), leaving)
    ensures forall b :: b in ListOf(RemoveResponsibility(s, e, p, r).duties, e) <==>
              (b in ListOf(s.duties, e) && b != Assignment(p, r))
  {
    if e in s.duties {
      var ds := s.duties[e];
      DI.RemoveOk(ds, Assignment(p, r));
      var rest := Without(ds, Assignment(p, r));
      if e in s.events {
        assert AttendanceAt(s, e, leaving);
        forall i | 0 <= i < |rest| && IsSingleton(rest[i].responsibility)
          ensures rest[i].profile in Present(s, e, leaving)
        {
          assert rest[i] in ds;
          DI.HoldersWithinIn(ds, Present(s, e, leaving), rest[i]);
        }
      }
      DutyListSafe(profiles, s, leaving, e, rest);
    }
  }

  lemma SignUpSafe(profiles: map<Id, Profile>, s: Store, e: Id, p: Id)
    requires Safe(profiles, s, None)
    ensures Safe(profiles, SignUp(profiles, s, e, p).0, None)
    ensures e in s.events && p in profiles ==> p in ListOf(SignUp(profiles, s, e, p).0.attendees, e)
  {
    var s' := SignUp(profiles, s, e, p).0;
    if s' != s {
      forall x | x in s'.events ensures AttendanceAt(s', x, None) && GateAt(s', x) {
        assert AttendanceAt(s, x, None) && GateAt(s, x);
        assert forall q | q in Present(s, x, None) :: q in Present(s', x, None);
      }
    }
  }

  lemma DeleteEventSafe(profiles: map<Id, Profile>, s: Store, e: Id)
    requires Safe(profiles, s, None)
    ensures Safe(profiles, DeleteEvent(s, e).0, None)
  {
    var s' := DeleteEvent(s, e).0;
    forall x | x in s'.events ensures AttendanceAt(s', x, None) && GateAt(s', x) {
      assert AttendanceAt(s, x, None) && GateAt(s, x);
    }
  }

  lemma CreateEventSafe(profiles: map<Id, Profile>, s: Store, e: Id, info: EventInfo)
    requires Safe(profiles, s, None)
    requires e !in s.events && e !in s.attendees && e !in s.duties && e !in s.patrols && e !in s.tents
    ensures Safe(profiles, CreateEvent(s, e, info), None)
  {
  }

  lemma {:induction false} AdultsOfFacts(profiles: map<Id, Profile>, people: seq<Id>)
    requires Distinct(people)
    ensures Distinct(AdultsOf(profiles, people))
    ensures forall p :: p in AdultsOf(profiles, people) <==> p in people && IsAdultIn(profiles, p)
  {
    if people != [] {
      var n := |people| - 1;
      AdultsOfFacts(profiles, people[..n]);
      assert people == people[..n] + [people[n]];
      assert people[n] !in people[..n];
    }
  }

  lemma {:induction false} PlaceAllWithin(profiles: map<Id, Profile>, gs: seq<CookingPatrol>, k: nat, movers: seq<Id>,
                                          people: seq<Id>)
    requires PI.PatrolsOk(profiles, gs) && k < |gs| && gs[k].kind && Within(gs, people)
    requires forall p | p in movers :: p in people
    ensures Within(PlaceAll(gs, k, movers), people)
  {
    if movers != [] {
      var n := |movers| - 1;
      PlaceAllWithin(profiles, gs, k, movers[..n], people);
      PI.PlaceAllOk(profiles, gs, k, movers[..n]);
      PlaceWithin(PlaceAll(gs, k, movers[..n]), k, movers[n], false, people);
    }
  }

  lemma EnableCookingWithin(profiles: map<Id, Profile>, gs: seq<CookingPatrol>, adults: seq<Id>, newId: Id,
                            people: seq<Id>)
    requires PI.PatrolsOk(profiles, gs) && Within(gs, people)
    requires forall p | p in adults :: p in people
    ensures Within(EnableCooking(gs, adults, newId), people)
  {
    var k := FirstAdult(gs);
    if k < |gs| {
      PlaceAllWithin(profiles, gs, k, adults, people);
    } else {
      var after := EnableCooking(gs, adults, newId);
      forall i, a | 0 <= i < |after| && 0 <= a < |after[i].members| ensures after[i].members[a].profile in people {
        assert i < |gs| ==> after[i] == gs[i];
        assert i == |gs| ==> after[i].members[a].profile == adults[a];
      }
    }
  }

  lemma EnableCookingUnique(profiles: map<Id, Profile>, m: map<Id, seq<CookingPatrol>>, e: Id, adults: seq<Id>,
                            newId: Id)
    requires UniqueIds(m) && !Known(m, newId) && PI.PatrolsOk(profiles, ListOf(m, e))
    ensures UniqueIds(m[e := EnableCooking(ListOf(m, e), adults, newId)])
  {
    var gs := ListOf(m, e);
    var k := FirstAdult(gs);
    if k < |gs| {
      PI.PlaceAllOk(profiles, gs, k, adults);
      UniqueIdsSameShape(m, e, PlaceAll(gs, k, adults));
    } else {
      UniqueIdsAppend(m, e, Group(newId, ADULTS_NAME, true, Seated(adults)));
    }
  }

  lemma EditEventSafe(profiles: map<Id, Profile>, s: Store, e: Id, info: EventInfo)
    requires Safe(profiles, s, None) && e in s.events
    requires s.events[e].cooking == info.cooking || ListOf(s.patrols, e) == [] || info.cooking
    ensures Safe(profiles, s.(events := s.events[e := info]), None)
  {
  }

  /** Switching cooking off without knowing that it was on leaves the patrols behind; every other update keeps the
      invariant, and one that switches cooking on seats every attending adult. */
  lemma UpdateSafe(profiles: map<Id, Profile>, s: Store, e: Id, info: EventInfo, prevCooking: bool, newId: Id)
    requires Safe(profiles, s, None) && !Known(s.patrols, newId) && e in s.events
    requires info.cooking || prevCooking || ListOf(s.patrols, e) == []
    ensures Safe(profiles, UpdateWithCooking(profiles, s, e, info, prevCooking, newId).0, None)
    ensures info.cooking && !prevCooking ==>
              forall p | p in ListOf(s.attendees, e) && IsAdultIn(profiles, p) ::
                PI.InAdultPatrol(ListOf(UpdateWithCooking(profiles, s, e, info, prevCooking, newId).0.patrols, e), p)
  {
    var gs := ListOf(s.patrols, e);
    assert AttendanceAt(s, e, None) && GateAt(s, e);
    EmptyPatrolsOk(profiles);
    if prevCooking == info.cooking {
      EditEventSafe(profiles, s, e, info);
    } else if !info.cooking {
      var m := s.patrols - {e};
      forall x | x in m && x in s.events
        ensures Within(m[x], Present(s, x, None)) && (!s.events[x].cooking ==> m[x] == [])
      {
        assert AttendanceAt(s, x, None) && GateAt(s, x);
      }
      PatrolMapSafe(profiles, s, None, m);
      EditEventSafe(profiles, s.(patrols := m), e, info);
    } else {
      var adults := AdultsOf(profiles, ListOf(s.attendees, e));
      var s1 := s.(events := s.events[e := info]);
      EditEventSafe(profiles, s, e, info);
      AdultsOfFacts(profiles, ListOf(s.attendees, e));
      PI.EnableCookingOk(profiles, gs, adults, newId);
      EnableCookingWithin(profiles, gs, adults, newId, Present(s, e, None));
      EnableCookingUnique(profiles, s.patrols, e, adults, newId);
      PatrolListSafe(profiles, s1, None, e, EnableCooking(gs, adults, newId));
    }
  }

  /** Editing an event keeps the invariant; switching cooking on seats every attending adult. */
  lemma HandleEditSafe(profiles: map<Id, Profile>, s: Store, e: Id, info: EventInfo, newId: Id)
    requires Safe(profiles, s, None) && !Known(s.patrols, newId)
    ensures Safe(profiles, HandleEdit(profiles, s, e, info, newId), None)
    ensures e in s.events && info.cooking && !s.events[e].cooking ==>
              forall p | p in ListOf(s.attendees, e) && IsAdultIn(profiles, p) ::
                PI.InAdultPatrol(ListOf(HandleEdit(profiles, s, e, info, newId).patrols, e), p)
  {
    if e in s.events {
      assert GateAt(s, e);
      UpdateSafe(profiles, s, e, info, s.events[e].cooking, newId);
    }
  }

  // ----- Requests -----

  lemma AfterSignUpSafe(profiles: map<Id, Profile>, s: Store, e: Id, p: Id, newId: Id)
    requires Safe(profiles, s, None) && !Known(s.patrols, newId)
    ensures Safe(profiles, AfterSignUp(profiles, s, e, p, newId).0, None)
  {
    if CookingOpen(s, e) && IsAdultIn(profiles, p) {
      var gs := ListOf(s.patrols, e);
      var k := FirstAdult(gs);
      if k < |gs| {
        UniqueIdsLocal(s.patrols, e);
        assert Find(gs, gs[k].id) == k;
        AssignPatrolMemberSafe(profiles, s, e, gs[k].id, p);
      } else {
        CreatePatrolSafe(profiles, s, None, e, true, newId);
        var s1 := CreateCookingPatrol(s, e, true, newId).0;
        UniqueIdsLocal(s1.patrols, e);
        var after := ListOf(s1.patrols, e);
        assert after[|gs|].id == newId && after[|gs|].kind;
        assert Find(after, newId) == |gs|;
        AssignPatrolMemberSafe(profiles, s1, e, newId, p);
      }
    }
  }

  lemma HandleSignUpSafe(profiles: map<Id, Profile>, s: Store, e: Id, p: Id, leads: bool, newId: Id)
    requires Safe(profiles, s, None) && !Known(s.patrols, newId)
    ensures Safe(profiles, HandleSignUp(profiles, s, e, p, leads, newId), None)
  {
    if e in s.events && p in profiles {
      SignUpSafe(profiles, s, e, p);
      var s1 := SignUp(profiles, s, e, p).0;
      AssignResponsibilitySafe(profiles, s1, e, p, SPL);
      var s2 := if profiles[p].memberType == Youth && leads then AssignResponsibility(s1, e, p, SPL).0 else s1;
      AfterSignUpSafe(profiles, s2, e, p, newId);
    }
  }

  lemma HandleCreateSafe(profiles: map<Id, Profile>, s: Store, e: Id, info: EventInfo, creator: Option<Id>, newId: Id)
    requires Safe(profiles, s, None) && !Known(s.patrols, newId)
    requires e !in s.events && e !in s.attendees && e !in s.duties && e !in s.patrols && e !in s.tents
    ensures Safe(profiles, HandleCreate(profiles, s, e, info, creator, newId), None)
  {
    CreateEventSafe(profiles, s, e, info);
    var s0 := CreateEvent(s, e, info);
    if creator.Some? {
      var p := creator.value;
      SignUpSafe(profiles, s0, e, p);
      var (s1, reply) := SignUp(profiles, s0, e, p);
      if reply.Done? {
        AssignResponsibilitySafe(profiles, s1, e, p, Coordinator);
      }
      var s2 := if reply.Done? then AssignResponsibility(s1, e, p, Coordinator).0 else s1;
      AfterSignUpSafe(profiles, s2, e, p, newId);
    }
  }

  lemma HandleToggleSafe(profiles: map<Id, Profile>, s: Store, e: Id, p: Id, r: Responsibility)
    requires Safe(profiles, s, None)
    ensures Safe(profiles, HandleToggle(s, e, p, r).0, None)
  {
    if r != Driver && e in s.events && p in ListOf(s.attendees, e) {
      if Assignment(p, r) in ListOf(s.duties, e) {
        RemoveResponsibilitySafe(profiles, s, None, e, p, r);
      } else {
        AssignResponsibilitySafe(profiles, s, e, p, r);
        var (s', reply) := AssignResponsibility(s, e, p, r);
        if reply.Failed? && reply.fault.SingletonConflict? {
          RemoveResponsibilitySafe(profiles, s', None, e, reply.fault.holder, r);
          AssignResponsibilitySafe(profiles, RemoveResponsibility(s', e, reply.fault.holder, r), e, p, r);
        }
      }
    }
  }

  lemma AssignToTentSafe(profiles: map<Id, Profile>, connections: seq<Connection>, s: Store, e: Id, t: Id, p: Id,
                         gap: int)
    requires Safe(profiles, s, None)
    ensures Safe(profiles, AssignToTent(profiles, connections, s, e, t, p, gap).0, None)
  {
    hide Safe, BlockedBy, AllKnown, AssignTentMember;
    if TI.IsYouthIn(profiles, p) {
      AssignTentMemberSafe(profiles, s, e, t, p);
    }
  }

  lemma AssignToPatrolSafe(profiles: map<Id, Profile>, s: Store, e: Id, g: Id, p: Id)
    requires Safe(profiles, s, None)
    ensures Safe(profiles, AssignToPatrol(profiles, s, e, g, p).0, None)
  {
    if AssignToPatrol(profiles, s, e, g, p).0 != s {
      AssignPatrolMemberSafe(profiles, s, e, g, p);
    }
  }

  // ----- Withdrawal -----

  lemma WithdrawSafe(profiles: map<Id, Profile>, s: Store, e: Id, p: Id)
    requires Safe(profiles, s, None) && e in s.events
    ensures Safe(profiles, Withdraw(s, e, p).0, Some((e, p)))
    ensures p !in ListOf(Withdraw(s, e, p).0.attendees, e)
  {
    var s' := Withdraw(s, e, p).0;
    var people := ListOf(s.attendees, e);
    if p in people {
      DI.WithoutDistinct(people, p);
    }
    forall x | x in s'.events ensures AttendanceAt(s', x, Some((e, p))) && GateAt(s', x) {
      assert AttendanceAt(s, x, None) && GateAt(s, x);
      forall q | q in Present(s, x, None) ensures q in Present(s', x, Some((e, p))) {
        if x == e && q != p {
          DI.WithoutOthers(people, p, q);
        }
      }
    }
  }

  lemma DropDutiesSafe(profiles: map<Id, Profile>, s: Store, leaving: Option<(Id, Id)>, e: Id, p: Id)
    requires Safe(profiles, s, leaving)
    ensures Safe(profiles, DropDuties(s, e, p), leaving)
    ensures DropDuties(s, e, p) == s.(duties := DropDuties(s, e, p).duties)
    ensures forall b :: b in ListOf(DropDuties(s, e, p).duties, e) <==>
              b in ListOf(s.duties, e) && (b.profile == p ==> b.responsibility.Other?)
  {
    hide Safe;
    RemoveResponsibilitySafe(profiles, s, leaving, e, p, Driver);
    var s0 := RemoveDriver(s, e, p);
    RemoveResponsibilitySafe(profiles, s0, leaving, e, p, SPL);
    var s1 := RemoveResponsibility(s0, e, p, SPL);
    RemoveResponsibilitySafe(profiles, s1, leaving, e, p, Coordinator);
    var s2 := RemoveResponsibility(s1, e, p, Coordinator);
    RemoveResponsibilitySafe(profiles, s2, leaving, e, p, MedicalOfficer);
    var s3 := RemoveResponsibility(s2, e, p, MedicalOfficer);
    RemoveResponsibilitySafe(profiles, s3, leaving, e, p, Driver);
    forall b ensures b in ListOf(DropDuties(s, e, p).duties, e) <==>
                     b in ListOf(s.duties, e) && (b.profile == p ==> b.responsibility.Other?) {
      assert b == Assignment(b.profile, b.responsibility);
    }
  }

  lemma NobodyLeft<K, F>(gs: seq<Group<K, F>>, people: seq<Id>, p: Id)
    requires Within(gs, people + [p]) && forall i | 0 <= i < |gs| :: !Has(gs[i], p)
    ensures Within(gs, people)
  {
    forall i, a | 0 <= i < |gs| && 0 <= a < |gs[i].members| ensures gs[i].members[a].profile in people {
      CountPositive(gs[i].members, p);
    }
  }

  /** A withdrawn profile is an attendee no more, is in no tent and in no patrol, and keeps of its
      responsibilities exactly the free-text ones; everybody else keeps theirs. */
  lemma HandleWithdrawSafe(profiles: map<Id, Profile>, s: Store, e: Id, p: Id)
    requires Safe(profiles, s, None)
    ensures Safe(profiles, HandleWithdraw(profiles, s, e, p), None)
    ensures e in s.events && p in profiles ==>
              var s' := HandleWithdraw(profiles, s, e, p);
              && p !in ListOf(s'.attendees, e)
              && (forall i | 0 <= i < |ListOf(s'.tents, e)| :: !Has(ListOf(s'.tents, e)[i], p))
              && (forall i | 0 <= i < |ListOf(s'.patrols, e)| :: !Has(ListOf(s'.patrols, e)[i], p))
              && (forall b :: b in ListOf(s'.duties, e) <==>
                    b in ListOf(s.duties, e) && (b.profile == p ==> b.responsibility.Other?))
  {
    hide Safe, DropDuties, LeavePatrol, Without, PullFirst;
    if e in s.events && p in profiles {
      var leaving := Some((e, p));
      WithdrawSafe(profiles, s, e, p);
      var s1 := Withdraw(s, e, p).0;
      DropDutiesSafe(profiles, s1, leaving, e, p);
      var s2 := DropDuties(s1, e, p);
      LeavePatrolSafe(profiles, s2, leaving, e, p);
      var s3 := LeavePatrol(s2, e, p).0;
      RemoveTentMemberSafe(profiles, s3, leaving, e, p);
      var s4 := RemoveTentMember(s3, e, p);
      WithdrawalComplete(profiles, s4, e, p);
    }
  }

  lemma HoldersLeft(ds: seq<Assignment>, people: seq<Id>, p: Id)
    requires DI.HoldersWithin(ds, people + [p])
    requires forall b | b in ds && b.profile == p :: !IsSingleton(b.responsibility)
    ensures DI.HoldersWithin(ds, people)
  {
  }

  lemma WithdrawalComplete(profiles: map<Id, Profile>, s: Store, e: Id, p: Id)
    requires Safe(profiles, s, Some((e, p))) && e in s.events
    requires forall i | 0 <= i < |ListOf(s.tents, e)| :: !Has(ListOf(s.tents, e)[i], p)
    requires forall i | 0 <= i < |ListOf(s.patrols, e)| :: !Has(ListOf(s.patrols, e)[i], p)
    requires forall b | b in ListOf(s.duties, e) && b.profile == p :: !IsSingleton(b.responsibility)
    ensures Safe(profiles, s, None)
  {
    var people := ListOf(s.attendees, e);
    assert AttendanceAt(s, e, None) by {
      assert AttendanceAt(s, e, Some((e, p)));
      assert Present(s, e, None) == people;
      NobodyLeft(ListOf(s.tents, e), people, p);
      NobodyLeft(ListOf(s.patrols, e), people, p);
      HoldersLeft(ListOf(s.duties, e), people, p);
    }
    forall x | x in s.events ensures AttendanceAt(s, x, None) && GateAt(s, x) {
      assert AttendanceAt(s, x, Some((e, p))) && GateAt(s, x);
      assert x != e ==> Present(s, x, Some((e, p))) == Present(s, x, None);
    }
  }

  // ----- Runs -----

  lemma EventStepSafe(profiles: map<Id, Profile>, w: World, op: Op)
    requires Safe(profiles, w.store, None) && DrawsFresh(w, op)
    requires op.CreateEventOp? || op.EditEventOp? || op.DeleteEventOp? || op.SignUpOp? || op.WithdrawOp? || op.ToggleOp?
          || op.AddDriverOp? || op.RemoveDriverOp?
    ensures Safe(profiles, NextStore(profiles, w, op), None)
  {
    var s := w.store;
    match op
    case CreateEventOp(e, info, creator, newId) => HandleCreateSafe(profiles, s, e, info, creator, newId);
    case EditEventOp(e, info, newId) => HandleEditSafe(profiles, s, e, info, newId);
    case DeleteEventOp(e) => DeleteEventSafe(profiles, s, e);
    case SignUpOp(e, p, leads, newId) => HandleSignUpSafe(profiles, s, e, p, leads, newId);
    case WithdrawOp(e, p) => HandleWithdrawSafe(profiles, s, e, p);
    case ToggleOp(e, p, r) => HandleToggleSafe(profiles, s, e, p, r);
    case AddDriverOp(e, p) => AssignResponsibilitySafe(profiles, s, e, p, Driver);
    case RemoveDriverOp(e, p) => RemoveResponsibilitySafe(profiles, s, None, e, p, Driver);
  }

  lemma GroupStepSafe(profiles: map<Id, Profile>, w: World, op: Op)
    requires Safe(profiles, w.store, None) && DrawsFresh(w, op)
    requires !(op.CreateEventOp? || op.EditEventOp? || op.DeleteEventOp? || op.SignUpOp? || op.WithdrawOp?
            || op.ToggleOp? || op.AddDriverOp? || op.RemoveDriverOp?)
    ensures Safe(profiles, NextStore(profiles, w, op), None)
  {
    var s := w.store;
    match op
    case CreateTentOp(e, newId) => CreateTentSafe(profiles, s, None, e, newId);
    case DeleteTentOp(t) => DeleteTentSafe(profiles, s, None, t);
    case AssignTentOp(e, t, p) => AssignToTentSafe(profiles, w.connections, s, e, t, p, w.maxAgeGap);
    case RemoveTentMemberOp(e, p) => RemoveTentMemberSafe(profiles, s, None, e, p);
    case CreatePatrolOp(e, newId) => if CookingOpen(s, e) { CreatePatrolSafe(profiles, s, None, e, false, newId); }
    case DeletePatrolOp(e, g) => DeletePatrolSafe(profiles, s, None, g);
    case AssignPatrolOp(e, g, p) => AssignToPatrolSafe(profiles, s, e, g, p);
    case RemovePatrolMemberOp(e, p) => if CookingOpen(s, e) { LeavePatrolSafe(profiles, s, None, e, p); }
    case SetCookOp(e, g, p) => SetCookSafe(profiles, s, None, e, g, p);
    case ClearCookOp(e, g) => ClearCookSafe(profiles, s, None, g);
    case AddConnectionOp(_) =>
    case SetStatusOp(_, _) =>
    case SetAgeGapOp(_) =>
  }

  lemma StepSafe(profiles: map<Id, Profile>, w: World, op: Op)
    requires Safe(profiles, w.store, None) && DrawsFresh(w, op)
    ensures Safe(profiles, Next(profiles, w, op).store, None)
  {
    if op.CreateEventOp? || op.EditEventOp? || op.DeleteEventOp? || op.SignUpOp? || op.WithdrawOp? || op.ToggleOp?
       || op.AddDriverOp? || op.RemoveDriverOp? {
      EventStepSafe(profiles, w, op);
    } else {
      GroupStepSafe(profiles, w, op);
    }
  }

  /** Every run of requests, from an empty store, ends in a safe state. */
  lemma {:induction false} RunsAreSafe(profiles: map<Id, Profile>, connections: seq<Connection>, gap: int, ops: seq<Op>)
    requires ProperRun(profiles, EmptyWorld(connections, gap), ops)
    ensures Safe(profiles, Run(profiles, EmptyWorld(connections, gap), ops).store, None)
  {
    if ops != [] {
      RunsAreSafe(profiles, connections, gap, ops[..|ops| - 1]);
      StepSafe(profiles, Run(profiles, EmptyWorld(connections, gap), ops[..|ops| - 1]), ops[|ops| - 1]);
    }
  }
}
