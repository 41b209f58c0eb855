/** What a sign-up and the creation of an event do, beyond keeping the invariant. */
module RequestMeaning {
  import opened Common
  import opened Profiles
  import opened Names
  import opened Groups
  import opened StoreSpec
  import opened ServiceSpec
  import opened GroupInvariants
  import opened Logistics
  import PI = PatrolInvariants

  ghost predicate IsAdultPatrol(gs: seq<CookingPatrol>, g: Id) {
    exists i | 0 <= i < |gs| :: gs[i].id == g && gs[i].kind
  }

  /** The old groups are still there, in place, under their identifiers, names and kinds. */
  ghost predicate Extends<K, F>(before: seq<Group<K, F>>, after: seq<Group<K, F>>) {
    |before| <= |after| && forall i | 0 <= i < |before| ::
      after[i].id == before[i].id && after[i].name == before[i].name && after[i].kind == before[i].kind
  }

  lemma ExtendsTwice<K, F>(a: seq<Group<K, F>>, b: seq<Group<K, F>>, c: seq<Group<K, F>>)
    requires Extends(a, b) && Extends(b, c)
    ensures Extends(a, c)
  {
  }

  lemma PatrolFound(profiles: map<Id, Profile>, s: Store, e: Id, k: nat)
    requires Safe(profiles, s, None) && k < |ListOf(s.patrols, e)|
    ensures Find(ListOf(s.patrols, e), ListOf(s.patrols, e)[k].id) == k
  {
    UniqueIdsLocal(s.patrols, e);
  }

  lemma PatrolsExclusive(profiles: map<Id, Profile>, s: Store, e: Id)
    requires Safe(profiles, s, None)
    ensures Exclusive(ListOf(s.patrols, e))
  {
    assert e in s.patrols ==> PI.PatrolsOk(profiles, s.patrols[e]);
  }

  /** Assigning to the patrol in place k moves the profile's row and no other. */
  lemma AssignMovesRow(profiles: map<Id, Profile>, s: Store, e: Id, k: nat, p: Id)
    requires e in s.events && p in profiles && p in ListOf(s.attendees, e)
    requires Exclusive(ListOf(s.patrols, e)) && k < |ListOf(s.patrols, e)|
    requires Find(ListOf(s.patrols, e), ListOf(s.patrols, e)[k].id) == k && ListOf(s.patrols, e)[k].kind
    ensures var g := ListOf(s.patrols, e)[k].id;
            var (s', reply) := AssignCookingPatrolMember(profiles, s, e, g, p);
            && reply == Done && s' == s.(patrols := s.patrols[e := ListOf(s'.patrols, e)])
            && IsAdultPatrol(ListOf(s'.patrols, e), g) && Extends(ListOf(s.patrols, e), ListOf(s'.patrols, e))
            && TableOf(ListOf(s'.patrols, e)) == Upsert(TableOf(ListOf(s.patrols, e)), p, g, false)
  {
    var gs := ListOf(s.patrols, e);
    PlaceRefinesUpsert(gs, k, p, false);
    var after := PlaceAt(gs, k, p, false);
    assert after[k].id == gs[k].id && after[k].kind;
  }

  /** The new adult patrol is found under its identifier, at the end of a list with the same rows as before. */
  lemma AdultPatrolCreated(profiles: map<Id, Profile>, s: Store, e: Id, newId: Id)
    requires Safe(profiles, s, None) && !Known(s.patrols, newId) && CookingOpen(s, e)
    requires FirstAdult(ListOf(s.patrols, e)) == |ListOf(s.patrols, e)|
    ensures var s' := CreateCookingPatrol(s, e, true, newId).0;
            var gs, after := ListOf(s.patrols, e), ListOf(s'.patrols, e);
            && s' == s.(patrols := s.patrols[e := after]) && Extends(gs, after)
            && |after| == |gs| + 1 && after[|gs|].id == newId && after[|gs|].kind && Find(after, newId) == |gs|
            && Exclusive(after) && TableOf(after) == TableOf(gs)
  {
    var s' := CreateCookingPatrol(s, e, true, newId).0;
    CreatePatrolSafe(profiles, s, None, e, true, newId);
    PatrolFound(profiles, s', e, |ListOf(s.patrols, e)|);
    PatrolsExclusive(profiles, s', e);
    EmptyGroupHasNoRows(ListOf(s.patrols, e), Group(newId, ADULTS_NAME, true, []));
  }

  /** Seating an adult moves that adult's row to the adult patrol, as a non-cook, and no other row. */
  lemma AfterSignUpSeats(profiles: map<Id, Profile>, s: Store, e: Id, p: Id, newId: Id) returns (g: Id)
    requires Safe(profiles, s, None) && !Known(s.patrols, newId)
    requires CookingOpen(s, e) && IsAdultIn(profiles, p) && p in ListOf(s.attendees, e)
    ensures AfterSignUp(profiles, s, e, p, newId).1 == Done
    ensures var s' := AfterSignUp(profiles, s, e, p, newId).0;
            && s' == s.(patrols := s.patrols[e := ListOf(s'.patrols, e)])
            && IsAdultPatrol(ListOf(s'.patrols, e), g) && Extends(ListOf(s.patrols, e), ListOf(s'.patrols, e))
            && TableOf(ListOf(s'.patrols, e)) == Upsert(TableOf(ListOf(s.patrols, e)), p, g, false)
  {
    hide Safe, Exclusive, Extends, TableOf, Upsert, FirstAdult, Find, IsAdultPatrol, AssignCookingPatrolMember;
    hide CreateCookingPatrol, Known;
    var gs := ListOf(s.patrols, e);
    var k := FirstAdult(gs);
    if k < |gs| {
      g := gs[k].id;
      PatrolFound(profiles, s, e, k);
      PatrolsExclusive(profiles, s, e);
      AssignMovesRow(profiles, s, e, k, p);
    } else {
      g := newId;
      AdultPatrolCreated(profiles, s, e, newId);
      var s1 := CreateCookingPatrol(s, e, true, newId).0;
      AssignMovesRow(profiles, s1, e, |gs|, p);
      ExtendsTwice(gs, ListOf(s1.patrols, e), ListOf(AssignCookingPatrolMember(profiles, s1, e, g, p).0.patrols, e));
    }
  }

  /** Nobody else holds the responsibility. */
  ghost predicate Free(ds: seq<Assignment>, p: Id, r: Responsibility) {
    forall a | a in ds && a.responsibility == r :: a.profile == p
  }

  /** Assigning a singleton adds one entry when nobody else holds it, and changes nothing otherwise. */
  lemma AssignSingleton(profiles: map<Id, Profile>, s: Store, e: Id, p: Id, r: Responsibility)
    requires Safe(profiles, s, None) && e in s.events && IsSingleton(r)
    ensures var s' := AssignResponsibility(s, e, p, r).0;
            && s' == s.(duties := s'.duties)
            && (forall x | x != e :: ListOf(s'.duties, x) == ListOf(s.duties, x))
            && forall a :: a in ListOf(s'.duties, e) <==>
                 (a in ListOf(s.duties, e) || (a == Assignment(p, r) && Free(ListOf(s.duties, e), p, r)))
  {
    var ds := ListOf(s.duties, e);
    var k := Holder(ds, r);
    if k < |ds| {
      assert ds[k] in ds;
      assert ds[k].profile == p ==> ds[k] == Assignment(p, r);
    }
  }

  /** The last part of a sign-up: an adult of a cooking event is seated, nobody else is touched. */
  lemma SeatIfAdult(profiles: map<Id, Profile>, s: Store, e: Id, p: Id, newId: Id)
    requires Safe(profiles, s, None) && !Known(s.patrols, newId)
    requires e in s.events && p in profiles && p in ListOf(s.attendees, e)
    ensures var s' := AfterSignUp(profiles, s, e, p, newId).0;
            var before, after := ListOf(s.patrols, e), ListOf(s'.patrols, e);
            && s' == s.(patrols := s'.patrols)
            && (forall x | x != e :: ListOf(s'.patrols, x) == ListOf(s.patrols, x))
            && (if CookingOpen(s, e) && IsAdultIn(profiles, p)
                then Extends(before, after)
                     && exists g :: IsAdultPatrol(after, g) && TableOf(after) == Upsert(TableOf(before), p, g, false)
                else s'.patrols == s.patrols)
  {
    hide Safe, Known, TableOf, Upsert, IsAdultPatrol, Extends;
    if CookingOpen(s, e) && IsAdultIn(profiles, p) {
      var g := AfterSignUpSeats(profiles, s, e, p, newId);
    }
  }

  lemma SignUpAdds(profiles: map<Id, Profile>, s: Store, e: Id, p: Id)
    requires e in s.events && p in profiles
    ensures var s' := SignUp(profiles, s, e, p).0;
            && s' == s.(attendees := s'.attendees)
            && (forall x | x != e :: ListOf(s'.attendees, x) == ListOf(s.attendees, x))
            && (forall q :: q in ListOf(s'.attendees, e) <==> q in ListOf(s.attendees, e) || q == p)
  {
  }

  /** The two states agree on everything that belongs to other events. */
  ghost predicate OthersUntouched(s: Store, s': Store, e: Id) {
    forall x | x != e ::
      && ListOf(s'.attendees, x) == ListOf(s.attendees, x) && ListOf(s'.duties, x) == ListOf(s.duties, x)
      && ListOf(s'.patrols, x) == ListOf(s.patrols, x) && ListOf(s'.tents, x) == ListOf(s.tents, x)
  }

  /** A sign-up adds the attendee, makes a leading youth the senior patrol leader unless somebody else is, seats an
      adult in the adult patrol of a cooking event, and changes nothing else. */
  lemma SignUpMeaning(profiles: map<Id, Profile>, s: Store, e: Id, p: Id, leads: bool, newId: Id)
    requires Safe(profiles, s, None) && !Known(s.patrols, newId) && e in s.events && p in profiles
    ensures var s' := HandleSignUp(profiles, s, e, p, leads, newId);
            var before, after := ListOf(s.patrols, e), ListOf(s'.patrols, e);
            && s'.events == s.events && s'.tents == s.tents && OthersUntouched(s, s', e)
            && (forall q :: q in ListOf(s'.attendees, e) <==> q in ListOf(s.attendees, e) || q == p)
            && (forall a :: a in ListOf(s'.duties, e) <==>
                  (a in ListOf(s.duties, e) ||
                   (a == Assignment(p, SPL) && profiles[p].memberType == Youth && leads
                    && Free(ListOf(s.duties, e), p, SPL))))
            && (if s.events[e].cooking && IsAdultIn(profiles, p)
                then Extends(before, after)
                     && exists g :: IsAdultPatrol(after, g) && TableOf(after) == Upsert(TableOf(before), p, g, false)
                else s'.patrols == s.patrols)
  {
    hide Safe, Known, TableOf, Upsert, IsAdultPatrol, Extends, SignUp, AfterSignUp, AssignResponsibility, Free;
    SignUpSafe(profiles, s, e, p);
    SignUpAdds(profiles, s, e, p);
    var s1 := SignUp(profiles, s, e, p).0;
    AssignSingleton(profiles, s1, e, p, SPL);
    AssignResponsibilitySafe(profiles, s1, e, p, SPL);
    var s2 := if profiles[p].memberType == Youth && leads then AssignResponsibility(s1, e, p, SPL).0 else s1;
    SeatIfAdult(profiles, s2, e, p, newId);
  }

  /** The creator of an event is its only attendee and its coordinator, and sits in the adult patrol when an adult
      creates a cooking event. */
  lemma CreateMeaning(profiles: map<Id, Profile>, s: Store, e: Id, info: EventInfo, p: Id, newId: Id)
    requires Safe(profiles, s, None) && !Known(s.patrols, newId) && p in profiles
    requires e !in s.events && e !in s.attendees && e !in s.duties && e !in s.patrols && e !in s.tents
    ensures var s' := HandleCreate(profiles, s, e, info, Some(p), newId);
            && s'.events == s.events[e := info] && s'.tents == s.tents && OthersUntouched(s, s', e)
            && ListOf(s'.attendees, e) == [p] && ListOf(s'.duties, e) == [Assignment(p, Coordinator)]
            && (if info.cooking && IsAdultIn(profiles, p)
                then exists g ::
                  IsAdultPatrol(ListOf(s'.patrols, e), g) && TableOf(ListOf(s'.patrols, e)) == map[p := (g, false)]
                else s'.patrols == s.patrols)
  {
    hide Safe, Known, IsAdultPatrol, Extends, AfterSignUp;
    CreateEventSafe(profiles, s, e, info);
    var s0 := CreateEvent(s, e, info);
    SignUpSafe(profiles, s0, e, p);
    var s1 := SignUp(profiles, s0, e, p).0;
    AssignResponsibilitySafe(profiles, s1, e, p, Coordinator);
    var s2 := AssignResponsibility(s1, e, p, Coordinator).0;
    SeatIfAdult(profiles, s2, e, p, newId);
    NobodySeated();
  }

  lemma NobodySeated()
    ensures var none: seq<CookingPatrol> := []; TableOf(none) == map[]
  {
  }

  /** An event without a known creator has no attendee. Requests about an unknown event or profile do nothing. */
  lemma UnknownChangesNothing(profiles: map<Id, Profile>, s: Store, e: Id, p: Id, info: EventInfo, leads: bool,
                              newId: Id)
    ensures HandleCreate(profiles, s, e, info, None, newId) == s.(events := s.events[e := info])
    ensures p !in profiles && p !in ListOf(s.attendees, e) ==>
              HandleCreate(profiles, s, e, info, Some(p), newId) == s.(events := s.events[e := info])
    ensures e !in s.events || p !in profiles ==>
              HandleSignUp(profiles, s, e, p, leads, newId) == s && HandleWithdraw(profiles, s, e, p) == s
    ensures e !in s.events ==> LeavePatrol(s, e, p) == (s, Failed(EventNotFound))
  {
  }
}
