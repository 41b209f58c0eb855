/** Attendance when the calls of overlapping requests interleave: every place of an event is held by an attendee, or by
    somebody whose withdrawal has not come to the call that clears it. */
module Attendance {
  import opened Common
  import opened Profiles
  import opened Names
  import opened Groups
  import opened GroupInvariants
  import opened StoreSpec
  import opened Logistics
  import opened RepositoryCalls
  import PI = PatrolInvariants
  import DI = DutyInvariants

  datatype Place = InTent | InPatrol | Holding(responsibility: Responsibility)

  /** The call takes its profile out of such a place of the event. */
  predicate Clears(call: Call, e: Id, place: Place) {
    match place
    case InTent => call.RemoveFromTent? && call.event == e
    case InPatrol => call.RemoveFromPatrol? && call.event == e
    case Holding(r) => call.RemoveDuty? && call.event == e && call.responsibility == r
  }

  function Others(people: seq<Id>, p: Id): seq<Id> {
    if people == [] then []
    else
      var rest := Others(people[..|people| - 1], p);
      var last := people[|people| - 1];
      if last == p then rest else rest + [last]
  }

  /** Who has withdrawn from the event without having been taken out of the place since. */
  function Leavers(calls: seq<Call>, e: Id, place: Place): seq<Id> {
    if calls == [] then []
    else
      var rest := Leavers(calls[..|calls| - 1], e, place);
      var last := calls[|calls| - 1];
      if last.Withdraw? && last.event == e then rest + [last.profile]
      else if Clears(last, e, place) then Others(rest, last.profile)
      else rest
  }

  /** Those who may have such a place: the attendees and the leavers. */
  function Entitled(s: Store, calls: seq<Call>, e: Id, place: Place): seq<Id> {
    ListOf(s.attendees, e) + Leavers(calls, e, place)
  }

  ghost predicate DutiesEntitled(s: Store, calls: seq<Call>, e: Id) {
    forall a | a in ListOf(s.duties, e) && IsSingleton(a.responsibility) ::
      a.profile in Entitled(s, calls, e, Holding(a.responsibility))
  }

  ghost predicate EntitledAt(s: Store, calls: seq<Call>, e: Id) {
    && Within(ListOf(s.tents, e), Entitled(s, calls, e, InTent))
    && Within(ListOf(s.patrols, e), Entitled(s, calls, e, InPatrol))
    && DutiesEntitled(s, calls, e)
  }

  ghost predicate AllEntitled(s: Store, calls: seq<Call>) {
    forall e | e in s.events :: EntitledAt(s, calls, e)
  }

  // ----- Who is entitled after a call -----

  lemma {:induction false} OthersMembers(people: seq<Id>, p: Id, q: Id)
    ensures q in Others(people, p) <==> q in people && q != p
  {
    if people != [] {
      var n := |people| - 1;
      OthersMembers(people[..n], p, q);
      assert people == people[..n] + [people[n]];
    }
  }

  lemma LeaversStep(calls: seq<Call>, call: Call, e: Id, place: Place, q: Id)
    ensures q in Leavers(calls + [call], e, place) <==>
              call == Call.Withdraw(e, q) ||
              (q in Leavers(calls, e, place) && !(Clears(call, e, place) && call.profile == q))
  {
    assert (calls + [call])[..|calls|] == calls;
    if Clears(call, e, place) {
      OthersMembers(Leavers(calls, e, place), call.profile, q);
    }
  }

  lemma AttendeesStep(profiles: map<Id, Profile>, s: Store, call: Call, e: Id, q: Id)
    requires q in ListOf(s.attendees, e) && e in After(profiles, s, call).events
    ensures q in ListOf(After(profiles, s, call).attendees, e) || call == Call.Withdraw(e, q)
  {
    if !TouchesAttendance(call) {
      hide After;
      CallFrame(profiles, s, call);
    } else if call.Withdraw? && call.event == e && q != call.profile {
      DI.WithoutOthers(s.attendees[e], call.profile, q);
    }
  }

  /** Nobody but the profile that the call takes out of the place loses the title to it. */
  lemma EntitledStep(profiles: map<Id, Profile>, s: Store, calls: seq<Call>, call: Call, e: Id, place: Place, q: Id)
    requires q in Entitled(s, calls, e, place) && e in After(profiles, s, call).events
    requires !(Clears(call, e, place) && call.profile == q)
    ensures q in Entitled(After(profiles, s, call), calls + [call], e, place)
  {
    hide After, Leavers;
    LeaversStep(calls, call, e, place, q);
    if q in ListOf(s.attendees, e) {
      AttendeesStep(profiles, s, call, e, q);
    }
  }

  lemma StillEntitled(profiles: map<Id, Profile>, s: Store, calls: seq<Call>, call: Call, e: Id, place: Place)
    requires e in After(profiles, s, call).events && !Clears(call, e, place)
    ensures forall q | q in Entitled(s, calls, e, place) ::
              q in Entitled(After(profiles, s, call), calls + [call], e, place)
  {
    hide After, Entitled;
    forall q | q in Entitled(s, calls, e, place)
      ensures q in Entitled(After(profiles, s, call), calls + [call], e, place)
    {
      EntitledStep(profiles, s, calls, call, e, place, q);
    }
  }

  lemma WithinMore<K, F>(gs: seq<Group<K, F>>, people: seq<Id>, more: seq<Id>)
    requires Within(gs, people) && forall q | q in people :: q in more
    ensures Within(gs, more)
  {
  }

  lemma WithinFewer<K, F>(gs: seq<Group<K, F>>, id: Id, people: seq<Id>)
    requires Within(gs, people)
    ensures Within(DropGroup(gs, id), people)
  {
  }

  lemma WithinEmpty<K, F>(gs: seq<Group<K, F>>, g: Group<K, F>, people: seq<Id>)
    requires Within(gs, people) && g.members == []
    ensures Within(gs + [g], people)
  {
  }

  lemma ListsExclusive(profiles: map<Id, Profile>, s: Store, e: Id)
    requires ListsOk(profiles, s)
    ensures Exclusive(ListOf(s.tents, e)) && Exclusive(ListOf(s.patrols, e))
    ensures PI.PatrolsOk(profiles, ListOf(s.patrols, e))
    ensures Distinct(ListOf(s.attendees, e)) && DI.DutiesOk(ListOf(s.duties, e))
  {
    PatrolListOk(profiles, s, e);
  }

  // ----- Tents -----

  lemma SameTents(profiles: map<Id, Profile>, s: Store, call: Call)
    requires !TouchesTents(call)
    ensures After(profiles, s, call).tents == s.tents
  {
    hide After;
    CallFrame(profiles, s, call);
  }

  lemma TentAssigned(profiles: map<Id, Profile>, s: Store, x: Id, t: Id, p: Id, e: Id, people: seq<Id>)
    requires Exclusive(ListOf(s.tents, e)) && Within(ListOf(s.tents, e), people)
    requires forall q | q in ListOf(s.attendees, e) :: q in people
    ensures Within(ListOf(AssignTentMember(profiles, s, x, t, p).0.tents, e), people)
  {
    hide Exclusive, Within, PlaceAt;
    if x == e && AssignTentMember(profiles, s, x, t, p).0 != s {
      PlaceWithin(ListOf(s.tents, e), Find(ListOf(s.tents, e), t), p, (), people);
    }
  }

  lemma TentCreated(s: Store, x: Id, t: Id, e: Id, people: seq<Id>)
    requires Within(ListOf(s.tents, e), people)
    ensures Within(ListOf(StoreSpec.CreateTent(s, x, t).0.tents, e), people)
  {
    hide Within, FreshName;
    var gs := ListOf(s.tents, e);
    WithinEmpty(gs, Group(t, FreshName(TENT_PREFIX, gs), (), []), people);
  }

  lemma TentDeleted(s: Store, t: Id, e: Id, people: seq<Id>)
    requires Within(ListOf(s.tents, e), people)
    ensures Within(ListOf(StoreSpec.DeleteTent(s, t).0.tents, e), people)
  {
    hide Within, DropGroup;
    WithinFewer(ListOf(s.tents, e), t, people);
  }

  lemma TentCleared(profiles: map<Id, Profile>, s: Store, x: Id, p: Id, e: Id, people: seq<Id>, rest: seq<Id>)
    requires Exclusive(ListOf(s.tents, e)) && Within(ListOf(s.tents, e), people)
    requires forall q | q in people && (x != e || q != p) :: q in rest
    ensures Within(ListOf(RemoveTentMember(s, x, p).tents, e), rest)
  {
    if x == e && e in s.tents {
      RemoveWithin(s.tents[e], p, people, rest);
    } else if e in s.tents {
      WithinMore(s.tents[e], people, rest);
    }
  }

  /** No call puts anybody but an attendee into a tent. */
  lemma TentCalls(profiles: map<Id, Profile>, s: Store, call: Call, e: Id, people: seq<Id>)
    requires ListsOk(profiles, s) && TouchesTents(call) && Within(ListOf(s.tents, e), people)
    requires forall q | q in ListOf(s.attendees, e) :: q in people
    ensures Within(ListOf(After(profiles, s, call).tents, e), people)
  {
    ListsExclusive(profiles, s, e);
    hide ListsOk, Exclusive, Within, StoreSpec.CreateTent, StoreSpec.DeleteTent, AssignTentMember, RemoveTentMember;
    match call
    case CreateTent(x, t) => TentCreated(s, x, t, e, people);
    case DeleteTent(t) => TentDeleted(s, t, e, people);
    case AssignTent(x, t, p) => TentAssigned(profiles, s, x, t, p, e, people);
    case RemoveFromTent(x, p) => TentCleared(profiles, s, x, p, e, people, people);
  }

  lemma TentsStep(profiles: map<Id, Profile>, s: Store, calls: seq<Call>, call: Call, e: Id)
    requires ListsOk(profiles, s) && Issued(profiles, s, call) && e in After(profiles, s, call).events
    requires e in s.events ==> Within(ListOf(s.tents, e), Entitled(s, calls, e, InTent))
    ensures Within(ListOf(After(profiles, s, call).tents, e),
                   Entitled(After(profiles, s, call), calls + [call], e, InTent))
  {
    var t := After(profiles, s, call);
    var before, after := Entitled(s, calls, e, InTent), Entitled(t, calls + [call], e, InTent);
    NewEventIsEmpty(profiles, s, call, e);
    if e in s.events {
      ListsExclusive(profiles, s, e);
      hide After, ListsOk, Within, Exclusive, Issued, Entitled;
      AttendeesEntitled(s, calls, e, InTent);
      if Clears(call, e, InTent) {
        forall q | q in before && q != call.profile ensures q in after {
          EntitledStep(profiles, s, calls, call, e, InTent, q);
        }
        CallOfRemoval(profiles, s, call);
        TentCleared(profiles, s, e, call.profile, e, before, after);
      } else {
        if TouchesTents(call) {
          TentCalls(profiles, s, call, e, before);
        } else {
          SameTents(profiles, s, call);
        }
        StillEntitled(profiles, s, calls, call, e, InTent);
        WithinMore(ListOf(t.tents, e), before, after);
      }
    }
  }

  lemma AttendeesEntitled(s: Store, calls: seq<Call>, e: Id, place: Place)
    ensures forall q | q in ListOf(s.attendees, e) :: q in Entitled(s, calls, e, place)
  {
  }

  lemma CallOfRemoval(profiles: map<Id, Profile>, s: Store, call: Call)
    ensures call.RemoveFromTent? ==>
              After(profiles, s, call) == RemoveTentMember(s, call.event, call.profile)
    ensures call.RemoveFromPatrol? ==>
              After(profiles, s, call) == RemoveCookingPatrolMember(s, call.event, call.profile)
  {
  }

  /** An event that the call creates has no places yet. */
  lemma NewEventIsEmpty(profiles: map<Id, Profile>, s: Store, call: Call, e: Id)
    requires Issued(profiles, s, call) && e in After(profiles, s, call).events
    ensures var t := After(profiles, s, call);
            e !in s.events ==> ListOf(t.tents, e) == [] && ListOf(t.patrols, e) == [] && ListOf(t.duties, e) == []
  {
    if !call.Create? {
      hide After;
      CallFrame(profiles, s, call);
    }
  }

  // ----- Patrols -----

  lemma SamePatrols(profiles: map<Id, Profile>, s: Store, call: Call)
    requires !TouchesPatrols(call)
    ensures After(profiles, s, call).patrols == s.patrols
  {
    hide After;
    CallFrame(profiles, s, call);
  }

  lemma PatrolAssigned(profiles: map<Id, Profile>, s: Store, x: Id, g: Id, p: Id, e: Id, people: seq<Id>)
    requires Exclusive(ListOf(s.patrols, e)) && Within(ListOf(s.patrols, e), people)
    requires forall q | q in ListOf(s.attendees, e) :: q in people
    ensures Within(ListOf(AssignCookingPatrolMember(profiles, s, x, g, p).0.patrols, e), people)
  {
    hide Exclusive, Within, PlaceAt;
    if x == e && AssignCookingPatrolMember(profiles, s, x, g, p).0 != s {
      PlaceWithin(ListOf(s.patrols, e), Find(ListOf(s.patrols, e), g), p, false, people);
    }
  }

  lemma PatrolCreated(s: Store, x: Id, isAdult: bool, g: Id, e: Id, people: seq<Id>)
    requires Within(ListOf(s.patrols, e), people)
    ensures Within(ListOf(CreateCookingPatrol(s, x, isAdult, g).0.patrols, e), people)
  {
    hide Within, FreshName;
    var gs := ListOf(s.patrols, e);
    WithinEmpty(gs, Group(g, if isAdult then ADULTS_NAME else FreshName(PATROL_PREFIX, gs), isAdult, []), people);
  }

  lemma PatrolDeleted(s: Store, g: Id, e: Id, people: seq<Id>)
    requires Within(ListOf(s.patrols, e), people)
    ensures Within(ListOf(DeleteCookingPatrol(s, g).0.patrols, e), people)
  {
    hide Within, DropGroup;
    WithinFewer(ListOf(s.patrols, e), g, people);
  }

  lemma PatrolReflagged(s: Store, x: Id, g: Id, p: Id, e: Id, people: seq<Id>)
    requires Within(ListOf(s.patrols, e), people)
    ensures Within(ListOf(SetCookingPatrolCook(s, x, g, p).0.patrols, e), people)
    ensures Within(ListOf(ClearCookingPatrolCook(s, g).patrols, e), people)
  {
    hide Within, ReflagGroup;
    ReflagWithin(ListOf(s.patrols, e), g, Some(p), people);
    ReflagWithin(ListOf(s.patrols, e), g, None, people);
  }

  lemma PatrolCleared(profiles: map<Id, Profile>, s: Store, x: Id, p: Id, e: Id, people: seq<Id>, rest: seq<Id>)
    requires Exclusive(ListOf(s.patrols, e)) && Within(ListOf(s.patrols, e), people)
    requires forall q | q in people && (x != e || q != p) :: q in rest
    ensures Within(ListOf(RemoveCookingPatrolMember(s, x, p).patrols, e), rest)
  {
    if x == e && e in s.patrols {
      RemoveWithin(s.patrols[e], p, people, rest);
    } else if e in s.patrols {
      WithinMore(s.patrols[e], people, rest);
    }
  }

  /** Nor into a patrol; switching cooking on seats attendees only. */
  lemma PatrolCalls(profiles: map<Id, Profile>, s: Store, call: Call, e: Id, people: seq<Id>)
    requires ListsOk(profiles, s) && TouchesPatrols(call) && Within(ListOf(s.patrols, e), people)
    requires forall q | q in ListOf(s.attendees, e) :: q in people
    ensures Within(ListOf(After(profiles, s, call).patrols, e), people)
  {
    ListsExclusive(profiles, s, e);
    hide ListsOk, Exclusive, Within, PI.PatrolsOk, Distinct;
    hide CreateCookingPatrol, DeleteCookingPatrol, AssignCookingPatrolMember, RemoveCookingPatrolMember;
    hide SetCookingPatrolCook, ClearCookingPatrolCook, UpdateWithCooking;
    match call
    case CreatePatrol(x, isAdult, g) => PatrolCreated(s, x, isAdult, g, e, people);
    case DeletePatrol(g) => PatrolDeleted(s, g, e, people);
    case AssignPatrol(x, g, p) => PatrolAssigned(profiles, s, x, g, p, e, people);
    case RemoveFromPatrol(x, p) => PatrolCleared(profiles, s, x, p, e, people, people);
    case SetCook(x, g, p) => PatrolReflagged(s, x, g, p, e, people);
    case ClearCook(g) => PatrolReflagged(s, e, g, 0, e, people);
    case Update(x, info, prev, g) => UpdateSeats(profiles, s, x, info, prev, g, e, people);
  }

  lemma UpdateSeats(profiles: map<Id, Profile>, s: Store, x: Id, info: EventInfo, prev: bool, newId: Id, e: Id,
                    people: seq<Id>)
    requires PI.PatrolsOk(profiles, ListOf(s.patrols, e)) && Distinct(ListOf(s.attendees, e))
    requires Within(ListOf(s.patrols, e), people) && forall q | q in ListOf(s.attendees, e) :: q in people
    ensures Within(ListOf(UpdateWithCooking(profiles, s, x, info, prev, newId).0.patrols, e), people)
  {
    hide PI.PatrolsOk;
    if x == e && e in s.events && info.cooking && !prev {
      var adults := AdultsOf(profiles, ListOf(s.attendees, e));
      AdultsOfFacts(profiles, ListOf(s.attendees, e));
      hide Within, EnableCooking, AdultsOf;
      EnableCookingWithin(profiles, ListOf(s.patrols, e), adults, newId, people);
    }
  }

  lemma PatrolsStep(profiles: map<Id, Profile>, s: Store, calls: seq<Call>, call: Call, e: Id)
    requires ListsOk(profiles, s) && Issued(profiles, s, call) && e in After(profiles, s, call).events
    requires e in s.events ==> Within(ListOf(s.patrols, e), Entitled(s, calls, e, InPatrol))
    ensures Within(ListOf(After(profiles, s, call).patrols, e),
                   Entitled(After(profiles, s, call), calls + [call], e, InPatrol))
  {
    var t := After(profiles, s, call);
    var before, after := Entitled(s, calls, e, InPatrol), Entitled(t, calls + [call], e, InPatrol);
    NewEventIsEmpty(profiles, s, call, e);
    if e in s.events {
      ListsExclusive(profiles, s, e);
      hide After, ListsOk, Within, Exclusive, Issued, Entitled;
      AttendeesEntitled(s, calls, e, InPatrol);
      if Clears(call, e, InPatrol) {
        forall q | q in before && q != call.profile ensures q in after {
          EntitledStep(profiles, s, calls, call, e, InPatrol, q);
        }
        CallOfRemoval(profiles, s, call);
        PatrolCleared(profiles, s, e, call.profile, e, before, after);
      } else {
        if TouchesPatrols(call) {
          PatrolCalls(profiles, s, call, e, before);
        } else {
          SamePatrols(profiles, s, call);
        }
        StillEntitled(profiles, s, calls, call, e, InPatrol);
        WithinMore(ListOf(t.patrols, e), before, after);
      }
    }
  }

  // ----- Responsibilities -----

  /** The call gives a singleton responsibility that nobody holds to somebody who is not entitled to it. */
  predicate Misassigns(s: Store, calls: seq<Call>, call: Call) {
    && call.AssignDuty? && call.event in s.events && IsSingleton(call.responsibility)
    && Holder(ListOf(s.duties, call.event), call.responsibility) == |ListOf(s.duties, call.event)|
    && call.profile !in Entitled(s, calls, call.event, Holding(call.responsibility))
  }

  lemma SameDuties(profiles: map<Id, Profile>, s: Store, call: Call)
    requires !TouchesDuties(call)
    ensures After(profiles, s, call).duties == s.duties
  {
    hide After;
    CallFrame(profiles, s, call);
  }

  /** Where a singleton responsibility after a call comes from. */
  lemma DutyAfter(profiles: map<Id, Profile>, s: Store, call: Call, e: Id, a: Assignment)
    requires ListsOk(profiles, s) && IsSingleton(a.responsibility)
    ensures a in ListOf(After(profiles, s, call).duties, e) <==>
              if call.RemoveDuty? && call.event == e && a == Assignment(call.profile, call.responsibility) then false
              else a in ListOf(s.duties, e)
                   || (call == Call.AssignDuty(e, a.profile, a.responsibility) && e in s.events
                       && Holder(ListOf(s.duties, e), a.responsibility) == |ListOf(s.duties, e)|)
  {
    ListsExclusive(profiles, s, e);
    hide ListsOk, DI.DutiesOk, AssignResponsibility, RemoveResponsibility;
    if !TouchesDuties(call) {
      SameDuties(profiles, s, call);
      hide After;
    }
    match call
    case RemoveDuty(x, p, r) => DutyRemoved(s, x, p, r, e, a);
    case AssignDuty(x, p, r) => DutyAssigned(s, x, p, r, e, a);
    case AddDriver(x, p) => DutyAssigned(s, x, p, Driver, e, a);
    case _ =>
  }

  lemma DutyRemoved(s: Store, x: Id, p: Id, r: Responsibility, e: Id, a: Assignment)
    requires DI.DutiesOk(ListOf(s.duties, e))
    ensures a in ListOf(RemoveResponsibility(s, x, p, r).duties, e) <==>
              a in ListOf(s.duties, e) && !(x == e && a == Assignment(p, r))
  {
    if x == e && e in s.duties {
      DI.RemoveOk(s.duties[e], Assignment(p, r));
    }
  }

  lemma DutyAssigned(s: Store, x: Id, p: Id, r: Responsibility, e: Id, a: Assignment)
    requires IsSingleton(a.responsibility)
    ensures a in ListOf(AssignResponsibility(s, x, p, r).0.duties, e) <==>
              a in ListOf(s.duties, e)
              || (x == e && a == Assignment(p, r) && e in s.events
                  && Holder(ListOf(s.duties, e), r) == |ListOf(s.duties, e)|)
  {
    var ds := ListOf(s.duties, e);
    var k := Holder(ds, r);
    assert k < |ds| && ds[k].profile == p ==> ds[k] == Assignment(p, r) && ds[k] in ds;
  }

  lemma DutyStep(profiles: map<Id, Profile>, s: Store, calls: seq<Call>, call: Call, e: Id, a: Assignment)
    requires ListsOk(profiles, s) && e in s.events && e in After(profiles, s, call).events
    requires DutiesEntitled(s, calls, e) && !Misassigns(s, calls, call)
    requires a in ListOf(After(profiles, s, call).duties, e) && IsSingleton(a.responsibility)
    ensures a.profile in Entitled(After(profiles, s, call), calls + [call], e, Holding(a.responsibility))
  {
    hide After, ListsOk, Entitled;
    DutyAfter(profiles, s, call, e, a);
    assert a == Assignment(a.profile, a.responsibility);
    EntitledStep(profiles, s, calls, call, e, Holding(a.responsibility), a.profile);
  }

  lemma DutiesStep(profiles: map<Id, Profile>, s: Store, calls: seq<Call>, call: Call, e: Id)
    requires ListsOk(profiles, s) && Issued(profiles, s, call) && e in After(profiles, s, call).events
    requires e in s.events ==> DutiesEntitled(s, calls, e)
    requires !Misassigns(s, calls, call)
    ensures DutiesEntitled(After(profiles, s, call), calls + [call], e)
  {
    NewEventIsEmpty(profiles, s, call, e);
    if e in s.events {
      hide After, ListsOk, Entitled, Issued;
      forall a | a in ListOf(After(profiles, s, call).duties, e) && IsSingleton(a.responsibility)
        ensures a.profile in Entitled(After(profiles, s, call), calls + [call], e, Holding(a.responsibility))
      {
        DutyStep(profiles, s, calls, call, e, a);
      }
    }
  }

  lemma MisassignedDuty(profiles: map<Id, Profile>, s: Store, calls: seq<Call>, call: Call)
    requires ListsOk(profiles, s) && Misassigns(s, calls, call)
    ensures !EntitledAt(After(profiles, s, call), calls + [call], call.event)
    ensures call.event in After(profiles, s, call).events
  {
    var a := Assignment(call.profile, call.responsibility);
    DutyAfter(profiles, s, call, call.event, a);
    LeaversStep(calls, call, call.event, Holding(call.responsibility), call.profile);
  }

  // ----- Whole interleavings -----

  /** A call keeps all places with those entitled to them if and only if it does not give a responsibility to anybody
      else. */
  lemma EntitledIff(profiles: map<Id, Profile>, s: Store, calls: seq<Call>, call: Call)
    requires ListsOk(profiles, s) && Issued(profiles, s, call) && AllEntitled(s, calls)
    ensures AllEntitled(After(profiles, s, call), calls + [call]) <==> !Misassigns(s, calls, call)
  {
    hide After, ListsOk, Issued, Within, DutiesEntitled, Entitled;
    if Misassigns(s, calls, call) {
      MisassignedDuty(profiles, s, calls, call);
    } else {
      forall e | e in After(profiles, s, call).events
        ensures EntitledAt(After(profiles, s, call), calls + [call], e)
      {
        assert e in s.events ==> EntitledAt(s, calls, e);
        TentsStep(profiles, s, calls, call, e);
        PatrolsStep(profiles, s, calls, call, e);
        DutiesStep(profiles, s, calls, call, e);
      }
    }
  }

  /** No call of the interleaving gives a responsibility to somebody not entitled to it. */
  ghost predicate NeverMisassigns(profiles: map<Id, Profile>, calls: seq<Call>) {
    calls == [] ||
    (NeverMisassigns(profiles, calls[..|calls| - 1])
     && !Misassigns(Run(profiles, EMPTY, calls[..|calls| - 1]), calls[..|calls| - 1], calls[|calls| - 1]))
  }

  ghost predicate AlwaysEntitled(profiles: map<Id, Profile>, calls: seq<Call>) {
    && AllEntitled(Run(profiles, EMPTY, calls), calls)
    && (calls == [] || AlwaysEntitled(profiles, calls[..|calls| - 1]))
  }

  /** In every interleaving, all places are held by attendees or by people whose withdrawal is still running, at all
      times, if and only if no call misassigns a responsibility. */
  lemma {:induction false} InterleavingsAttended(profiles: map<Id, Profile>, calls: seq<Call>)
    requires AllIssued(profiles, EMPTY, calls)
    ensures AlwaysEntitled(profiles, calls) <==> NeverMisassigns(profiles, calls)
  {
    hide Issued, After, Misassigns, EntitledAt;
    if calls != [] {
      var front := calls[..|calls| - 1];
      InterleavingsAttended(profiles, front);
      InterleavingsKeepLists(profiles, front);
      assert calls == front + [calls[|calls| - 1]];
      if AlwaysEntitled(profiles, front) {
        EntitledIff(profiles, Run(profiles, EMPTY, front), front, calls[|calls| - 1]);
      }
    }
  }

  /** The places that attendance is about: tents, patrols and the singleton responsibilities. */
  predicate Counts(place: Place) {
    place.Holding? ==> IsSingleton(place.responsibility)
  }

  /** Once every withdrawal from the event has run to its end, attendance holds again. */
  lemma AttendanceRestored(profiles: map<Id, Profile>, calls: seq<Call>, e: Id)
    requires AllIssued(profiles, EMPTY, calls) && NeverMisassigns(profiles, calls)
    requires e in Run(profiles, EMPTY, calls).events
    requires forall place | Counts(place) :: Leavers(calls, e, place) == []
    ensures AttendanceAt(Run(profiles, EMPTY, calls), e, None)
  {
    hide Issued, After, Misassigns;
    InterleavingsAttended(profiles, calls);
    var s := Run(profiles, EMPTY, calls);
    assert EntitledAt(s, calls, e);
    forall place | Counts(place) ensures Entitled(s, calls, e, place) == Present(s, e, None) {
    }
    assert Counts(InTent) && Counts(InPatrol);
    var ds := ListOf(s.duties, e);
    forall i | 0 <= i < |ds| && IsSingleton(ds[i].responsibility) ensures ds[i].profile in Present(s, e, None) {
      assert ds[i] in ds;
      assert Counts(Holding(ds[i].responsibility));
      assert Entitled(s, calls, e, Holding(ds[i].responsibility)) == Present(s, e, None);
    }
  }
}
