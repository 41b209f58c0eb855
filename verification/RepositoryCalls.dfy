/** Requests that overlap: their repository calls interleave, each still one step. */
module RepositoryCalls {
  import opened Common
  import opened Profiles
  import opened Names
  import opened Groups
  import opened GroupInvariants
  import opened StoreSpec
  import opened ServiceSpec
  import opened Logistics
  import PI = PatrolInvariants
  import TI = TentInvariants
  import DI = DutyInvariants

  /** A call, with the arguments its handler has worked out from what it read earlier. */
  datatype Call =
    | Create(event: Id, info: EventInfo)
    | Update(event: Id, info: EventInfo, prevCooking: bool, newPatrol: Id)
    | Delete(event: Id)
    | SignUp(event: Id, profile: Id)
    | Withdraw(event: Id, profile: Id)
    | AssignDuty(event: Id, profile: Id, responsibility: Responsibility)
    | AddDriver(event: Id, profile: Id)
    | RemoveDuty(event: Id, profile: Id, responsibility: Responsibility)
    | CreateTent(event: Id, newTent: Id)
    | DeleteTent(tent: Id)
    | AssignTent(event: Id, tent: Id, profile: Id)
    | RemoveFromTent(event: Id, profile: Id)
    | CreatePatrol(event: Id, isAdult: bool, newPatrol: Id)
    | DeletePatrol(patrol: Id)
    | AssignPatrol(event: Id, patrol: Id, profile: Id)
    | RemoveFromPatrol(event: Id, profile: Id)
    | SetCook(event: Id, patrol: Id, profile: Id)
    | ClearCook(patrol: Id)

  function After(profiles: map<Id, Profile>, s: Store, call: Call): Store {
    match call
    case Create(e, info) => StoreSpec.CreateEvent(s, e, info)
    case Update(e, info, prev, g) => UpdateWithCooking(profiles, s, e, info, prev, g).0
    case Delete(e) => DeleteEvent(s, e).0
    case SignUp(e, p) => StoreSpec.SignUp(profiles, s, e, p).0
    case Withdraw(e, p) => StoreSpec.Withdraw(s, e, p).0
    case AssignDuty(e, p, r) => AssignResponsibility(s, e, p, r).0
    case AddDriver(e, p) => StoreSpec.AddDriver(s, e, p).0
    case RemoveDuty(e, p, r) => RemoveResponsibility(s, e, p, r)
    case CreateTent(e, t) => StoreSpec.CreateTent(s, e, t).0
    case DeleteTent(t) => StoreSpec.DeleteTent(s, t).0
    case AssignTent(e, t, p) => AssignTentMember(profiles, s, e, t, p).0
    case RemoveFromTent(e, p) => RemoveTentMember(s, e, p)
    case CreatePatrol(e, isAdult, g) => CreateCookingPatrol(s, e, isAdult, g).0
    case DeletePatrol(g) => DeleteCookingPatrol(s, g).0
    case AssignPatrol(e, g, p) => AssignCookingPatrolMember(profiles, s, e, g, p).0
    case RemoveFromPatrol(e, p) => RemoveCookingPatrolMember(s, e, p)
    case SetCook(e, g, p) => SetCookingPatrolCook(s, e, g, p).0
    case ClearCook(g) => ClearCookingPatrolCook(s, g)
  }

  /** What the services check before a call and no other request can undo: member types and the kinds of patrols do not
      change, identifiers are new, and the number of a new group fits Go's int. */
  ghost predicate Issued(profiles: map<Id, Profile>, s: Store, call: Call) {
    match call
    case Create(e, _) => e !in s.events && e !in s.attendees && e !in s.duties && e !in s.patrols && e !in s.tents
    case Update(_, _, _, g) => !Known(s.patrols, g)
    case CreateTent(e, t) => !Known(s.tents, t) && Highest(TENT_PREFIX, ListOf(s.tents, e)) < INT_MAX
    case AssignTent(_, _, p) => TI.IsYouthIn(profiles, p)
    case CreatePatrol(e, isAdult, g) =>
      !Known(s.patrols, g) && (isAdult || Highest(PATROL_PREFIX, ListOf(s.patrols, e)) < INT_MAX)
    case AssignPatrol(e, g, p) =>
      var gs := ListOf(s.patrols, e); Find(gs, g) < |gs| ==> gs[Find(gs, g)].kind || !IsAdultIn(profiles, p)
    case _ => true
  }

  // ----- The lists survive -----

  lemma TentMapOk(profiles: map<Id, Profile>, s: Store, m: map<Id, seq<Tent>>)
    requires ListsOk(profiles, s) && UniqueIds(m) && forall e | e in m :: TI.TentsOk(profiles, m[e])
    ensures ListsOk(profiles, s.(tents := m))
  {
  }

  lemma PatrolMapOk(profiles: map<Id, Profile>, s: Store, m: map<Id, seq<CookingPatrol>>)
    requires ListsOk(profiles, s) && UniqueIds(m) && forall e | e in m :: PI.PatrolsOk(profiles, m[e])
    ensures ListsOk(profiles, s.(patrols := m))
  {
  }

  lemma CreateTentOk(profiles: map<Id, Profile>, s: Store, e: Id, newId: Id)
    requires ListsOk(profiles, s) && !Known(s.tents, newId) && Highest(TENT_PREFIX, ListOf(s.tents, e)) < INT_MAX
    ensures ListsOk(profiles, StoreSpec.CreateTent(s, e, newId).0)
  {
    if e in s.events {
      var gs := ListOf(s.tents, e);
      var g := Group(newId, FreshName(TENT_PREFIX, gs), (), []);
      UniqueIdsAppend(s.tents, e, g);
      FreshNameIsNew(TENT_PREFIX, gs);
      TI.AppendEmptyOk(profiles, gs, g);
      TentMapOk(profiles, s, s.tents[e := gs + [g]]);
    }
  }

  lemma DeleteTentOk(profiles: map<Id, Profile>, s: Store, t: Id)
    requires ListsOk(profiles, s)
    ensures ListsOk(profiles, StoreSpec.DeleteTent(s, t).0)
  {
    var m := DropGroupIn(s.tents, t);
    UniqueIdsDropGroup(s.tents, t);
    forall e | e in m ensures TI.TentsOk(profiles, m[e]) {
      TI.DropGroupOk(profiles, s.tents[e], t);
    }
    TentMapOk(profiles, s, m);
  }

  lemma AssignTentOk(profiles: map<Id, Profile>, s: Store, e: Id, t: Id, p: Id)
    requires ListsOk(profiles, s) && TI.IsYouthIn(profiles, p)
    ensures ListsOk(profiles, AssignTentMember(profiles, s, e, t, p).0)
  {
    var gs := ListOf(s.tents, e);
    var k := Find(gs, t);
    if k < |gs| {
      TI.PlaceOk(profiles, gs, k, p);
      UniqueIdsSameShape(s.tents, e, PlaceAt(gs, k, p, ()));
      TentMapOk(profiles, s, s.tents[e := PlaceAt(gs, k, p, ())]);
    }
  }

  lemma RemoveFromTentOk(profiles: map<Id, Profile>, s: Store, e: Id, p: Id)
    requires ListsOk(profiles, s)
    ensures ListsOk(profiles, RemoveTentMember(s, e, p))
  {
    if e in s.tents {
      FirstMatchSuffices(s.tents[e], p);
      TI.PullOutOk(profiles, s.tents[e], p);
      UniqueIdsSameShape(s.tents, e, PullOut(s.tents[e], p));
      TentMapOk(profiles, s, s.tents[e := PullOut(s.tents[e], p)]);
    }
  }

  lemma PatrolListOk(profiles: map<Id, Profile>, s: Store, e: Id)
    requires ListsOk(profiles, s)
    ensures PI.PatrolsOk(profiles, ListOf(s.patrols, e))
  {
    EmptyPatrolsOk(profiles);
  }

  lemma CreatePatrolOk(profiles: map<Id, Profile>, s: Store, e: Id, isAdult: bool, newId: Id)
    requires ListsOk(profiles, s) && !Known(s.patrols, newId)
    requires isAdult || Highest(PATROL_PREFIX, ListOf(s.patrols, e)) < INT_MAX
    ensures ListsOk(profiles, CreateCookingPatrol(s, e, isAdult, newId).0)
  {
    var gs := ListOf(s.patrols, e);
    PatrolListOk(profiles, s, e);
    if e in s.events && !(isAdult && HasAdultPatrol(gs)) {
      var g := Group(newId, if isAdult then ADULTS_NAME else FreshName(PATROL_PREFIX, gs), isAdult, []);
      UniqueIdsAppend(s.patrols, e, g);
      PI.NewPatrolName(profiles, gs, isAdult, g.name);
      PI.AppendEmptyOk(profiles, gs, g);
      PatrolMapOk(profiles, s, s.patrols[e := gs + [g]]);
    }
  }

  lemma DeletePatrolOk(profiles: map<Id, Profile>, s: Store, g: Id)
    requires ListsOk(profiles, s)
    ensures ListsOk(profiles, DeleteCookingPatrol(s, g).0)
  {
    var m := DropGroupIn(s.patrols, g);
    UniqueIdsDropGroup(s.patrols, g);
    forall e | e in m ensures PI.PatrolsOk(profiles, m[e]) {
      PI.DropGroupOk(profiles, s.patrols[e], g);
    }
    PatrolMapOk(profiles, s, m);
  }

  lemma AssignPatrolOk(profiles: map<Id, Profile>, s: Store, e: Id, g: Id, p: Id)
    requires ListsOk(profiles, s)
    requires var gs := ListOf(s.patrols, e); Find(gs, g) < |gs| ==> gs[Find(gs, g)].kind || !IsAdultIn(profiles, p)
    ensures ListsOk(profiles, AssignCookingPatrolMember(profiles, s, e, g, p).0)
  {
    var gs := ListOf(s.patrols, e);
    var k := Find(gs, g);
    PatrolListOk(profiles, s, e);
    if k < |gs| {
      PI.PlaceOk(profiles, gs, k, p);
      UniqueIdsSameShape(s.patrols, e, PlaceAt(gs, k, p, false));
      PatrolMapOk(profiles, s, s.patrols[e := PlaceAt(gs, k, p, false)]);
    }
  }

  lemma RemoveFromPatrolOk(profiles: map<Id, Profile>, s: Store, e: Id, p: Id)
    requires ListsOk(profiles, s)
    ensures ListsOk(profiles, RemoveCookingPatrolMember(s, e, p))
  {
    if e in s.patrols {
      FirstMatchSuffices(s.patrols[e], p);
      PI.PullOutOk(profiles, s.patrols[e], p);
      UniqueIdsSameShape(s.patrols, e, PullOut(s.patrols[e], p));
      PatrolMapOk(profiles, s, s.patrols[e := PullOut(s.patrols[e], p)]);
    }
  }

  lemma CookCallsOk(profiles: map<Id, Profile>, s: Store, call: Call)
    requires ListsOk(profiles, s) && (call.SetCook? || call.ClearCook?)
    ensures ListsOk(profiles, After(profiles, s, call))
  {
    match call
    case SetCook(e, g, p) =>
      var gs := ListOf(s.patrols, e);
      if Find(gs, g) < |gs| {
        PI.ReflagOk(profiles, gs, g, Some(p));
        UniqueIdsSameShape(s.patrols, e, ReflagGroup(gs, g, Some(p)));
        PatrolMapOk(profiles, s, s.patrols[e := ReflagGroup(gs, g, Some(p))]);
      }
    case ClearCook(g) =>
      var m := ClearCookIn(s.patrols, g);
      UniqueIdsClearCook(s.patrols, g);
      forall e | e in m ensures PI.PatrolsOk(profiles, m[e]) {
        PI.ReflagOk(profiles, s.patrols[e], g, None);
      }
      PatrolMapOk(profiles, s, m);
  }

  /** Cooking may be switched with a stale idea of how it was: the patrols stay well formed all the same. */
  lemma UpdateOk(profiles: map<Id, Profile>, s: Store, e: Id, info: EventInfo, prevCooking: bool, newId: Id)
    requires ListsOk(profiles, s) && !Known(s.patrols, newId)
    ensures ListsOk(profiles, UpdateWithCooking(profiles, s, e, info, prevCooking, newId).0)
  {
    if e in s.events && prevCooking != info.cooking {
      PatrolListOk(profiles, s, e);
      if info.cooking {
        var gs, adults := ListOf(s.patrols, e), AdultsOf(profiles, ListOf(s.attendees, e));
        AdultsOfFacts(profiles, ListOf(s.attendees, e));
        PI.EnableCookingOk(profiles, gs, adults, newId);
        EnableCookingUnique(profiles, s.patrols, e, adults, newId);
        PatrolMapOk(profiles, s, s.patrols[e := EnableCooking(gs, adults, newId)]);
      } else {
        PatrolMapOk(profiles, s, s.patrols - {e});
      }
    }
  }

  lemma AssignDutyOk(profiles: map<Id, Profile>, s: Store, e: Id, p: Id, r: Responsibility)
    requires ListsOk(profiles, s)
    ensures ListsOk(profiles, AssignResponsibility(s, e, p, r).0)
  {
    var ds := ListOf(s.duties, e);
    if Holder(ds, r) < |ds| && ds[Holder(ds, r)].profile == p {
      assert ds[Holder(ds, r)] == Assignment(p, r);
    }
    if AssignResponsibility(s, e, p, r).0 != s {
      DI.AddOk(ds, Assignment(p, r));
    }
  }

  lemma DutyCallsOk(profiles: map<Id, Profile>, s: Store, call: Call)
    requires ListsOk(profiles, s) && (call.AssignDuty? || call.AddDriver? || call.RemoveDuty?)
    ensures ListsOk(profiles, After(profiles, s, call))
  {
    match call
    case AssignDuty(e, p, r) => AssignDutyOk(profiles, s, e, p, r);
    case AddDriver(e, p) => AssignDutyOk(profiles, s, e, p, Driver);
    case RemoveDuty(e, p, r) =>
      if e in s.duties {
        DI.RemoveOk(s.duties[e], Assignment(p, r));
      }
  }

  lemma AttendanceCallsOk(profiles: map<Id, Profile>, s: Store, call: Call)
    requires ListsOk(profiles, s) && Issued(profiles, s, call)
    requires call.SignUp? || call.Withdraw? || call.Create? || call.Delete?
    ensures ListsOk(profiles, After(profiles, s, call))
  {
    match call
    case Withdraw(e, p) =>
      if p in ListOf(s.attendees, e) {
        DI.WithoutDistinct(s.attendees[e], p);
      }
    case _ =>
  }

  /** Whatever was read before it, no issued call breaks the lists: nobody is in two tents or patrols, no tent has an
      adult, no patrol two cooks, no event two adult patrols, no responsibility two holders. */
  lemma CallKeepsLists(profiles: map<Id, Profile>, s: Store, call: Call)
    requires ListsOk(profiles, s) && Issued(profiles, s, call)
    ensures ListsOk(profiles, After(profiles, s, call))
  {
    match call
    case CreateTent(e, t) => CreateTentOk(profiles, s, e, t);
    case DeleteTent(t) => DeleteTentOk(profiles, s, t);
    case AssignTent(e, t, p) => AssignTentOk(profiles, s, e, t, p);
    case RemoveFromTent(e, p) => RemoveFromTentOk(profiles, s, e, p);
    case CreatePatrol(e, isAdult, g) => CreatePatrolOk(profiles, s, e, isAdult, g);
    case DeletePatrol(g) => DeletePatrolOk(profiles, s, g);
    case AssignPatrol(e, g, p) => AssignPatrolOk(profiles, s, e, g, p);
    case RemoveFromPatrol(e, p) => RemoveFromPatrolOk(profiles, s, e, p);
    case SetCook(_, _, _) => CookCallsOk(profiles, s, call);
    case ClearCook(_) => CookCallsOk(profiles, s, call);
    case Update(e, info, prev, g) => UpdateOk(profiles, s, e, info, prev, g);
    case AssignDuty(_, _, _) => DutyCallsOk(profiles, s, call);
    case AddDriver(_, _) => DutyCallsOk(profiles, s, call);
    case RemoveDuty(_, _, _) => DutyCallsOk(profiles, s, call);
    case _ => AttendanceCallsOk(profiles, s, call);
  }

  function Run(profiles: map<Id, Profile>, s: Store, calls: seq<Call>): Store {
    if calls == [] then s else After(profiles, Run(profiles, s, calls[..|calls| - 1]), calls[|calls| - 1])
  }

  ghost predicate AllIssued(profiles: map<Id, Profile>, s: Store, calls: seq<Call>) {
    calls == [] ||
    (AllIssued(profiles, s, calls[..|calls| - 1])
     && Issued(profiles, Run(profiles, s, calls[..|calls| - 1]), calls[|calls| - 1]))
  }

  const EMPTY := Store(map[], map[], map[], map[], map[], map[])

  /** The lists are well formed after every interleaving of issued calls. */
  lemma {:induction false} InterleavingsKeepLists(profiles: map<Id, Profile>, calls: seq<Call>)
    requires AllIssued(profiles, EMPTY, calls)
    ensures ListsOk(profiles, Run(profiles, EMPTY, calls))
  {
    if calls != [] {
      hide Issued, After, ListsOk;
      InterleavingsKeepLists(profiles, calls[..|calls| - 1]);
      CallKeepsLists(profiles, Run(profiles, EMPTY, calls[..|calls| - 1]), calls[|calls| - 1]);
    } else {
      EmptyListsOk(profiles);
    }
  }

  lemma EmptyListsOk(profiles: map<Id, Profile>)
    ensures ListsOk(profiles, EMPTY)
  {
  }

  predicate TouchesTents(call: Call) {
    call.CreateTent? || call.DeleteTent? || call.AssignTent? || call.RemoveFromTent?
  }

  predicate TouchesPatrols(call: Call) {
    || call.CreatePatrol? || call.DeletePatrol? || call.AssignPatrol? || call.RemoveFromPatrol?
    || call.SetCook? || call.ClearCook? || call.Update?
  }

  predicate TouchesDuties(call: Call) {
    call.AssignDuty? || call.AddDriver? || call.RemoveDuty?
  }

  predicate TouchesAttendance(call: Call) {
    call.SignUp? || call.Withdraw? || call.Delete?
  }

  lemma TentFrame(profiles: map<Id, Profile>, s: Store, call: Call)
    requires TouchesTents(call)
    ensures var t := After(profiles, s, call); t == s.(tents := t.tents)
  {
    hide PlaceAt, PullFirst, FreshName, DropGroupIn;
  }

  lemma UpdateFrame(profiles: map<Id, Profile>, s: Store, e: Id, info: EventInfo, prev: bool, newId: Id)
    ensures var t := UpdateWithCooking(profiles, s, e, info, prev, newId).0;
            t == s.(patrols := t.patrols, events := t.events) && t.events.Keys == s.events.Keys
  {
    hide EnableCooking, AdultsOf;
  }

  lemma PatrolFrame(profiles: map<Id, Profile>, s: Store, call: Call)
    requires TouchesPatrols(call)
    ensures var t := After(profiles, s, call);
            t == s.(patrols := t.patrols, events := t.events) && t.events.Keys == s.events.Keys
  {
    hide UpdateWithCooking, PlaceAt, PullFirst, FreshName, ReflagGroup, DropGroupIn, ClearCookIn, Known, HasAdultPatrol;
    if call.Update? {
      UpdateFrame(profiles, s, call.event, call.info, call.prevCooking, call.newPatrol);
    }
  }

  lemma DutyFrame(profiles: map<Id, Profile>, s: Store, call: Call)
    requires TouchesDuties(call)
    ensures var t := After(profiles, s, call); t == s.(duties := t.duties)
  {
    hide Holder, Without;
  }

  lemma AttendanceFrame(profiles: map<Id, Profile>, s: Store, call: Call)
    requires TouchesAttendance(call) || call.Create?
    ensures var t := After(profiles, s, call);
            && t == s.(attendees := t.attendees, withdrawn := t.withdrawn, events := t.events)
            && (call.Create? ==> t.attendees == s.attendees && t.withdrawn == s.withdrawn)
            && (!call.Create? ==> t.events.Keys <= s.events.Keys)
  {
    hide Without;
  }

  /** Which components of the state a call may change. */
  lemma CallFrame(profiles: map<Id, Profile>, s: Store, call: Call)
    ensures var t := After(profiles, s, call);
            && (!TouchesTents(call) ==> t.tents == s.tents) && (!TouchesPatrols(call) ==> t.patrols == s.patrols)
            && (!TouchesDuties(call) ==> t.duties == s.duties)
            && (!TouchesAttendance(call) ==> t.attendees == s.attendees && t.withdrawn == s.withdrawn)
            && (!call.Create? ==> t.events.Keys <= s.events.Keys)
  {
    hide After;
    if TouchesTents(call) {
      TentFrame(profiles, s, call);
    } else if TouchesPatrols(call) {
      PatrolFrame(profiles, s, call);
    } else if TouchesDuties(call) {
      DutyFrame(profiles, s, call);
    } else {
      AttendanceFrame(profiles, s, call);
    }
  }

  lemma WithdrawnStillCount(s: Store, x: Id, q: Id, e: Id, p: Id)
    ensures HasSignedUp(StoreSpec.Withdraw(s, x, q).0, e, p) <==> HasSignedUp(s, e, p)
  {
    if x == e && p != q && e in s.attendees {
      DI.WithoutOthers(s.attendees[e], q, p);
    }
  }

  /** Having signed up is what its name says: only a sign-up brings it about, and only the deletion of the event
      takes it away. */
  lemma SignedUpIff(profiles: map<Id, Profile>, s: Store, call: Call, e: Id, p: Id)
    ensures HasSignedUp(After(profiles, s, call), e, p) <==>
              if call == SignUp(e, p) && e in s.events && p in profiles then true
              else HasSignedUp(s, e, p) && !(call == Delete(e) && e in s.events)
  {
    if !TouchesAttendance(call) {
      hide After;
      CallFrame(profiles, s, call);
    } else if call.Withdraw? {
      hide HasSignedUp, StoreSpec.Withdraw;
      WithdrawnStillCount(s, call.event, call.profile, e, p);
    }
  }

  // ----- Attendance and the cooking gate -----

  /** The profile sits in a tent or a patrol of the event or holds one of its singleton responsibilities. */
  ghost predicate Placed(s: Store, e: Id, p: Id) {
    || (exists i | 0 <= i < |ListOf(s.tents, e)| :: Has(ListOf(s.tents, e)[i], p))
    || (exists i | 0 <= i < |ListOf(s.patrols, e)| :: Has(ListOf(s.patrols, e)[i], p))
    || (exists r :: IsSingleton(r) && Assignment(p, r) in ListOf(s.duties, e))
  }

  /** The call leaves somebody who does not attend in a place of the event: a responsibility given after its taker has
      withdrawn, or a withdrawal before the cascade. */
  ghost predicate Strands(s: Store, call: Call) {
    match call
    case AssignDuty(e, p, r) =>
      e in s.events && IsSingleton(r) && p !in ListOf(s.attendees, e)
      && Holder(ListOf(s.duties, e), r) == |ListOf(s.duties, e)|
    case Withdraw(e, p) => e in s.events && p in ListOf(s.attendees, e) && Placed(s, e, p)
    case _ => false
  }

  /** The call leaves a patrol in an event without cooking: created after cooking was switched off, or kept by an edit
      that did not know it was on. */
  predicate OpensGate(s: Store, call: Call) {
    match call
    case CreatePatrol(e, _, _) => e in s.events && !s.events[e].cooking
    case Update(e, info, prev, _) => e in s.events && !info.cooking && !prev && ListOf(s.patrols, e) != []
    case _ => false
  }

  lemma DutyCallSafe(profiles: map<Id, Profile>, s: Store, e: Id, p: Id, r: Responsibility)
    requires Safe(profiles, s, None)
    ensures Safe(profiles, AssignResponsibility(s, e, p, r).0, None) <==> !Strands(s, AssignDuty(e, p, r))
  {
    var ds := ListOf(s.duties, e);
    var k := Holder(ds, r);
    var s' := AssignResponsibility(s, e, p, r).0;
    if Strands(s, AssignDuty(e, p, r)) {
      assert Assignment(p, r) !in ds;
      var after := ListOf(s'.duties, e);
      assert after[|ds|] == Assignment(p, r);
      assert !DI.HoldersWithin(after, Present(s', e, None));
      assert !AttendanceAt(s', e, None);
    } else if !IsSingleton(r) || p in ListOf(s.attendees, e) {
      AssignResponsibilitySafe(profiles, s, e, p, r);
    } else if e in s.events {
      assert AttendanceAt(s, e, None);
      assert ds[k].profile != p;
    }
  }

  lemma WithdrawnPlaced(s: Store, e: Id, p: Id)
    requires e in s.events && p !in ListOf(s.attendees, e) && Placed(s, e, p)
    ensures !AttendanceAt(s, e, None)
  {
    if i :| 0 <= i < |ListOf(s.tents, e)| && Has(ListOf(s.tents, e)[i], p) {
      CountPositive(ListOf(s.tents, e)[i].members, p);
    } else if i :| 0 <= i < |ListOf(s.patrols, e)| && Has(ListOf(s.patrols, e)[i], p) {
      CountPositive(ListOf(s.patrols, e)[i].members, p);
    } else {
      var r :| IsSingleton(r) && Assignment(p, r) in ListOf(s.duties, e);
      var k :| 0 <= k < |ListOf(s.duties, e)| && ListOf(s.duties, e)[k] == Assignment(p, r);
    }
  }

  lemma WithdrawCallSafe(profiles: map<Id, Profile>, s: Store, e: Id, p: Id)
    requires Safe(profiles, s, None)
    ensures Safe(profiles, StoreSpec.Withdraw(s, e, p).0, None) <==> !Strands(s, Withdraw(e, p))
  {
    var s' := StoreSpec.Withdraw(s, e, p).0;
    if e in s.events && p in ListOf(s.attendees, e) {
      WithdrawSafe(profiles, s, e, p);
      assert Placed(s', e, p) <==> Placed(s, e, p);
      if Placed(s, e, p) {
        WithdrawnPlaced(s', e, p);
      } else {
        forall b | b in ListOf(s'.duties, e) && b.profile == p ensures !IsSingleton(b.responsibility) {
          assert b == Assignment(p, b.responsibility);
        }
        WithdrawalComplete(profiles, s', e, p);
      }
    }
  }

  lemma GateHolds(profiles: map<Id, Profile>, s: Store, e: Id)
    requires Safe(profiles, s, None) && e in s.events
    ensures GateAt(s, e)
  {
  }

  lemma CreatePatrolCallSafe(profiles: map<Id, Profile>, s: Store, call: Call)
    requires Safe(profiles, s, None) && Issued(profiles, s, call) && call.CreatePatrol?
    ensures Safe(profiles, After(profiles, s, call), None) <==> !OpensGate(s, call)
  {
    hide Safe, FreshName, Known;
    var s' := After(profiles, s, call);
    if call.event in s.events {
      GateHolds(profiles, s, call.event);
      if OpensGate(s, call) {
        assert ListOf(s.patrols, call.event) == [] && ListOf(s'.patrols, call.event) != [];
        if Safe(profiles, s', None) {
          GateHolds(profiles, s', call.event);
        }
      } else {
        CreatePatrolSafe(profiles, s, None, call.event, call.isAdult, call.newPatrol);
      }
    }
  }

  lemma UpdateCallSafe(profiles: map<Id, Profile>, s: Store, call: Call)
    requires Safe(profiles, s, None) && Issued(profiles, s, call) && call.Update?
    ensures Safe(profiles, After(profiles, s, call), None) <==> !OpensGate(s, call)
  {
    hide Safe, EnableCooking, AdultsOf, Known;
    var s' := After(profiles, s, call);
    if call.event in s.events {
      GateHolds(profiles, s, call.event);
      if OpensGate(s, call) {
        if Safe(profiles, s', None) {
          GateHolds(profiles, s', call.event);
        }
      } else {
        UpdateSafe(profiles, s, call.event, call.info, call.prevCooking, call.newPatrol);
      }
    }
  }

  lemma OtherCallSafe(profiles: map<Id, Profile>, s: Store, call: Call)
    requires Safe(profiles, s, None) && Issued(profiles, s, call)
    requires !(call.AssignDuty? || call.Withdraw? || call.CreatePatrol? || call.Update?)
    ensures Safe(profiles, After(profiles, s, call), None)
  {
    match call
    case Create(e, info) => CreateEventSafe(profiles, s, e, info);
    case Delete(e) => DeleteEventSafe(profiles, s, e);
    case SignUp(e, p) => SignUpSafe(profiles, s, e, p);
    case AddDriver(e, p) => AssignResponsibilitySafe(profiles, s, e, p, Driver);
    case RemoveDuty(e, p, r) => RemoveResponsibilitySafe(profiles, s, None, e, p, r);
    case CreateTent(e, t) => CreateTentSafe(profiles, s, None, e, t);
    case DeleteTent(t) => DeleteTentSafe(profiles, s, None, t);
    case AssignTent(e, t, p) => AssignTentMemberSafe(profiles, s, e, t, p);
    case RemoveFromTent(e, p) => RemoveTentMemberSafe(profiles, s, None, e, p);
    case DeletePatrol(g) => DeletePatrolSafe(profiles, s, None, g);
    case AssignPatrol(e, g, p) => AssignPatrolMemberSafe(profiles, s, e, g, p);
    case RemoveFromPatrol(e, p) => RemovePatrolMemberSafe(profiles, s, None, e, p);
    case SetCook(e, g, p) => SetCookSafe(profiles, s, None, e, g, p);
    case ClearCook(g) => ClearCookSafe(profiles, s, None, g);
    case _ =>
  }

  /** A call keeps the whole invariant if and only if it strands nobody and opens no gate. */
  lemma CallSafeIff(profiles: map<Id, Profile>, s: Store, call: Call)
    requires Safe(profiles, s, None) && Issued(profiles, s, call)
    ensures Safe(profiles, After(profiles, s, call), None) <==> !Strands(s, call) && !OpensGate(s, call)
  {
    hide Safe, Issued;
    match call
    case AssignDuty(e, p, r) => DutyCallSafe(profiles, s, e, p, r);
    case Withdraw(e, p) => WithdrawCallSafe(profiles, s, e, p);
    case CreatePatrol(_, _, _) => CreatePatrolCallSafe(profiles, s, call);
    case Update(_, _, _, _) => UpdateCallSafe(profiles, s, call);
    case _ => OtherCallSafe(profiles, s, call);
  }

  // ----- Both happen -----

  lemma RunThree(profiles: map<Id, Profile>, a: Call, b: Call, c: Call)
    ensures Run(profiles, EMPTY, [a, b, c]) == After(profiles, After(profiles, After(profiles, EMPTY, a), b), c)
    ensures AllIssued(profiles, EMPTY, [a, b, c]) <==>
              Issued(profiles, EMPTY, a) && Issued(profiles, After(profiles, EMPTY, a), b)
              && Issued(profiles, After(profiles, After(profiles, EMPTY, a), b), c)
  {
    hide After, Issued;
    var s1 := After(profiles, EMPTY, a);
    assert [a][..0] == [] && Run(profiles, EMPTY, [a]) == s1;
    assert AllIssued(profiles, EMPTY, [a]) <==> Issued(profiles, EMPTY, a);
    assert [a, b][..1] == [a] && Run(profiles, EMPTY, [a, b]) == After(profiles, s1, b);
    assert AllIssued(profiles, EMPTY, [a, b]) <==> Issued(profiles, EMPTY, a) && Issued(profiles, s1, b);
    assert [a, b, c][..2] == [a, b];
  }

  /** A toggle that was allowed for an attendee stores the responsibility after the attendee has withdrawn. */
  lemma LateDuty(profiles: map<Id, Profile>, p: Id, info: EventInfo)
    requires p in profiles
    ensures var calls := [Create(1, info), SignUp(1, p), Withdraw(1, p)];
            var s := Run(profiles, EMPTY, calls);
            && AllIssued(profiles, EMPTY, calls) && Safe(profiles, s, None)
            && p in ListOf(Run(profiles, EMPTY, calls[..2]).attendees, 1) && p !in ListOf(s.attendees, 1)
            && Strands(s, AssignDuty(1, p, SPL)) && !Safe(profiles, After(profiles, s, AssignDuty(1, p, SPL)), None)
  {
    var calls := [Create(1, info), SignUp(1, p), Withdraw(1, p)];
    RunThree(profiles, calls[0], calls[1], calls[2]);
    var s1 := After(profiles, EMPTY, calls[0]);
    var s2 := After(profiles, s1, calls[1]);
    assert calls[..2] == [calls[0], calls[1]] && [calls[0], calls[1]][..1] == [calls[0]] && [calls[0]][..0] == [];
    assert Run(profiles, EMPTY, [calls[0]]) == s1;
    var nobody: seq<Id> := [];
    assert ListOf(s1.attendees, 1) == nobody && nobody + [p] == [p];
    assert s2.attendees == map[1 := [p]];
    EmptySafe(profiles);
    CallSafeIff(profiles, EMPTY, calls[0]);
    CallSafeIff(profiles, s1, calls[1]);
    CallSafeIff(profiles, s2, calls[2]);
    CallSafeIff(profiles, After(profiles, s2, calls[2]), AssignDuty(1, p, SPL));
  }

  lemma EmptySafe(profiles: map<Id, Profile>)
    ensures Safe(profiles, EMPTY, None)
  {
  }

  /** A patrol whose creation was allowed while cooking was on is stored after an edit has switched it off. */
  lemma LatePatrol(profiles: map<Id, Profile>, info: EventInfo)
    requires info.cooking
    ensures var calls := [Create(1, info), Update(1, info.(cooking := false), true, 2), CreatePatrol(1, false, 3)];
            AllIssued(profiles, EMPTY, calls) && !Safe(profiles, Run(profiles, EMPTY, calls), None)
  {
    var calls := [Create(1, info), Update(1, info.(cooking := false), true, 2), CreatePatrol(1, false, 3)];
    RunThree(profiles, calls[0], calls[1], calls[2]);
    var s1 := After(profiles, EMPTY, calls[0]);
    EmptySafe(profiles);
    CallSafeIff(profiles, EMPTY, calls[0]);
    CallSafeIff(profiles, s1, calls[1]);
    CallSafeIff(profiles, After(profiles, s1, calls[1]), calls[2]);
  }
}
