/** The three responsibilities that one profile at most may hold, by name. */
module DutyMeaning {
  import opened Common
  import opened Profiles
  import opened StoreSpec
  import opened ServiceSpec
  import opened Logistics
  import opened TentRuns
  import DI = DutyInvariants

  // ----- One holder each -----

  lemma OneHolder(profiles: map<Id, Profile>, s: Store, e: Id, a: Assignment, b: Assignment)
    requires Safe(profiles, s, None) && a in ListOf(s.duties, e) && b in ListOf(s.duties, e)
    requires a.responsibility == b.responsibility && a.responsibility in {SPL, Coordinator, MedicalOfficer}
    ensures a.profile == b.profile
    ensures e in s.events ==> a.profile in ListOf(s.attendees, e)
  {
    var ds := ListOf(s.duties, e);
    assert DI.DutiesOk(ds);
    var i :| 0 <= i < |ds| && ds[i] == a;
    var j :| 0 <= j < |ds| && ds[j] == b;
    assert i < j || j < i || i == j;
    if e in s.events {
      assert AttendanceAt(s, e, None);
      DI.HoldersWithinIn(ds, Present(s, e, None), a);
    }
  }

  /** After every run of requests an event has at most one senior patrol leader, one coordinator and one medical
      officer, and each of them attends. */
  lemma RunsHaveOneHolder(profiles: map<Id, Profile>, connections: seq<Connection>, gap: int, ops: seq<Op>, e: Id,
                          a: Assignment, b: Assignment)
    requires ProperRun(profiles, EmptyWorld(connections, gap), ops)
    requires var s := Run(profiles, EmptyWorld(connections, gap), ops).store;
             a in ListOf(s.duties, e) && b in ListOf(s.duties, e)
    requires a.responsibility == b.responsibility && a.responsibility in {SPL, Coordinator, MedicalOfficer}
    ensures a.profile == b.profile
    ensures var s := Run(profiles, EmptyWorld(connections, gap), ops).store;
            e in s.events ==> a.profile in ListOf(s.attendees, e)
  {
    hide Safe;
    RunsAreSafe(profiles, connections, gap, ops);
    OneHolder(profiles, Run(profiles, EmptyWorld(connections, gap), ops).store, e, a, b);
  }

  // ----- Assigning -----

  /** Nobody but the profile holds the responsibility. */
  ghost predicate NobodyElse(ds: seq<Assignment>, p: Id, r: Responsibility) {
    forall a | a in ds && a.responsibility == r :: a.profile == p
  }

  /** One of the three is given to somebody if nobody else has it, and refused otherwise with the name of the holder.
      Any other responsibility is given whoever has it. Given means: held once, with all other assignments in place. */
  lemma AssignMeaning(s: Store, e: Id, p: Id, r: Responsibility)
    ensures var (s', reply) := AssignResponsibility(s, e, p, r);
            var before, after := ListOf(s.duties, e), ListOf(s'.duties, e);
            if e !in s.events then s' == s && reply == Failed(EventNotFound)
            else if r in {SPL, Coordinator, MedicalOfficer} && !NobodyElse(before, p, r) && Assignment(p, r) !in before
            then s' == s && reply.Failed? && reply.fault.SingletonConflict?
                 && Assignment(reply.fault.holder, r) in before
            else if r in {SPL, Coordinator, MedicalOfficer} && !NobodyElse(before, p, r) then s' == s
            else reply == Done && s' == (if Assignment(p, r) in before then s
                                         else s.(duties := s.duties[e := before + [Assignment(p, r)]]))
  {
    var ds := ListOf(s.duties, e);
    var k := Holder(ds, r);
    if k < |ds| {
      assert ds[k] in ds && ds[k] == Assignment(ds[k].profile, r);
    }
  }

  /** Taking a responsibility away removes that assignment and no other. */
  lemma RemoveMeaning(profiles: map<Id, Profile>, s: Store, e: Id, p: Id, r: Responsibility)
    requires Safe(profiles, s, None)
    ensures var s' := RemoveResponsibility(s, e, p, r);
            && s' == s.(duties := s'.duties)
            && (forall a :: a in ListOf(s'.duties, e) <==> a in ListOf(s.duties, e) && a != Assignment(p, r))
            && (forall x | x != e :: ListOf(s'.duties, x) == ListOf(s.duties, x))
  {
    hide Safe, Without;
    RemoveResponsibilitySafe(profiles, s, None, e, p, r);
  }

  /** Whoever has signed up for a known event can be made a driver, once, whoever else drives; anybody else is refused.
      */
  lemma AddDriverMeaning(s: Store, e: Id, p: Id)
    requires e in s.events
    ensures var (s', reply) := AddDriver(s, e, p);
            var before := ListOf(s.duties, e);
            if p in ListOf(s.attendees, e) || p in ListOf(s.withdrawn, e) then
              && reply == Done && Assignment(p, Driver) in ListOf(s'.duties, e)
              && s' == (if Assignment(p, Driver) in before then s
                        else s.(duties := s.duties[e := before + [Assignment(p, Driver)]]))
            else s' == s && reply == Failed(NotSignedUp)
  {
    AssignMeaning(s, e, p, Driver);
  }

  /** Removing a driver removes that driver and nothing else. */
  lemma RemoveDriverMeaning(profiles: map<Id, Profile>, s: Store, e: Id, p: Id)
    requires Safe(profiles, s, None)
    ensures var s' := RemoveDriver(s, e, p);
            && s' == s.(duties := s'.duties)
            && (forall a :: a in ListOf(s'.duties, e) <==> a in ListOf(s.duties, e) && a != Assignment(p, Driver))
            && (forall x | x != e :: ListOf(s'.duties, x) == ListOf(s.duties, x))
  {
    hide Safe, RemoveResponsibility;
    RemoveMeaning(profiles, s, e, p, Driver);
  }

  // ----- Toggling -----

  /** A toggle of one of the three by an attendee who does not hold it leaves that attendee its sole holder. A toggle of
      a free-text one by a non-holder takes it from nobody. */
  lemma ToggleByName(profiles: map<Id, Profile>, s: Store, e: Id, p: Id, r: Responsibility)
    requires Safe(profiles, s, None) && e in s.events && p in ListOf(s.attendees, e) && r != Driver
    requires Assignment(p, r) !in ListOf(s.duties, e)
    ensures var (s', reply) := HandleToggle(s, e, p, r);
            && reply == Done && Assignment(p, r) in ListOf(s'.duties, e)
            && (r in {SPL, Coordinator, MedicalOfficer} ==>
                  forall a | a in ListOf(s'.duties, e) && a.responsibility == r :: a == Assignment(p, r))
            && (r.Other? ==> forall a | a in ListOf(s.duties, e) :: a in ListOf(s'.duties, e))
            && (forall a: Assignment | a.responsibility != r ::
                  a in ListOf(s'.duties, e) <==> a in ListOf(s.duties, e))
  {
    hide Safe, HandleToggle;
    ToggleMeaning(profiles, s, e, p, r);
  }

  /** All other toggles are refused without effect: of the driver, for an unknown event, by somebody who does not
      attend. */
  lemma ToggleRefusals(s: Store, e: Id, p: Id, r: Responsibility)
    ensures r == Driver ==> HandleToggle(s, e, p, r) == (s, Failed(DriverManagedSeparately))
    ensures r != Driver && e !in s.events ==> HandleToggle(s, e, p, r) == (s, Failed(EventNotFound))
    ensures r != Driver && e in s.events && p !in ListOf(s.attendees, e) ==>
              HandleToggle(s, e, p, r) == (s, Failed(NotSignedUp))
  {
  }
}
