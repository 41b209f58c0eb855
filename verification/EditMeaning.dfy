/** What an edit of an event does to its cooking patrols, and all that it leaves alone. */
module EditMeaning {
  import opened Common
  import opened Profiles
  import opened Names
  import opened Groups
  import opened GroupInvariants
  import opened StoreSpec
  import opened ServiceSpec
  import opened Logistics
  import opened RequestMeaning
  import opened StoreMeaning
  import PI = PatrolInvariants

  // ----- Seating several people -----

  lemma OkIsExclusive(profiles: map<Id, Profile>, gs: seq<CookingPatrol>)
    requires PI.PatrolsOk(profiles, gs)
    ensures Exclusive(gs)
  {
  }

  lemma {:induction false} PlaceAllRow(profiles: map<Id, Profile>, gs: seq<CookingPatrol>, k: nat, people: seq<Id>,
                                       q: Id)
    requires PI.PatrolsOk(profiles, gs) && k < |gs| && gs[k].kind
    ensures Row(PlaceAll(gs, k, people), q) == if q in people then Some((gs[k].id, false)) else Row(gs, q)
  {
    hide PI.PatrolsOk, Exclusive, PlaceAt, Row;
    if people != [] {
      var n := |people| - 1;
      var before := PlaceAll(gs, k, people[..n]);
      PlaceAllRow(profiles, gs, k, people[..n], q);
      PI.PlaceAllOk(profiles, gs, k, people[..n]);
      OkIsExclusive(profiles, before);
      RowAfterPlace(before, k, people[n], false, q);
      assert people == people[..n] + [people[n]];
    }
  }

  lemma {:induction false} PlaceAllKeepsGroups(gs: seq<CookingPatrol>, k: nat, people: seq<Id>)
    requires k < |gs|
    ensures SameGroups(gs, PlaceAll(gs, k, people))
  {
    if people != [] {
      PlaceAllKeepsGroups(gs, k, people[..|people| - 1]);
    }
  }

  lemma {:induction false} NoCookAmong(ms: seq<Member<bool>>, q: Id)
    requires Count(ms, q) > 0 && forall m | m in ms :: !m.flag
    ensures !FlagOf(ms, q)
  {
    if ms[0].profile != q {
      NoCookAmong(ms[1..], q);
    }
  }

  lemma NewPatrolRow(profiles: map<Id, Profile>, gs: seq<CookingPatrol>, adults: seq<Id>, newId: Id, q: Id)
    requires PI.PatrolsOk(profiles, gs) && Distinct(adults) && !HasAdultPatrol(gs)
    requires forall p | p in adults :: IsAdultIn(profiles, p)
    ensures Row(gs + [Group(newId, ADULTS_NAME, true, Seated(adults))], q) ==
            if q in adults then Some((newId, false)) else Row(gs, q)
  {
    var after := gs + [Group(newId, ADULTS_NAME, true, Seated(adults))];
    PI.NewAdultPatrolOk(profiles, gs, adults, newId);
    PI.SeatedCount(adults, q);
    var h := Home(gs, q);
    if q in adults {
      RowAt(after, |gs|, q);
      NoCookAmong(Seated(adults), q);
    } else if h < |gs| {
      RowAt(after, h, q);
    } else {
      assert Home(after, q) == |after|;
    }
  }

  /** In the table, the people given are in the group, as non-cooks; everybody else is where they were. */
  ghost predicate SeatedIn(before: Table<bool>, after: Table<bool>, g: Id, people: seq<Id>) {
    forall q :: if q in people then q in after && after[q] == (g, false)
                else (q in after <==> q in before) && (q in after ==> after[q] == before[q])
  }

  /** The patrol that the adults are seated in. */
  function SeatPatrol(gs: seq<CookingPatrol>, newId: Id): Id {
    var k := FirstAdult(gs);
    if k < |gs| then gs[k].id else newId
  }

  lemma SeatedRow(profiles: map<Id, Profile>, gs: seq<CookingPatrol>, adults: seq<Id>, newId: Id, q: Id)
    requires PI.PatrolsOk(profiles, gs) && Distinct(adults) && forall p | p in adults :: IsAdultIn(profiles, p)
    ensures Row(EnableCooking(gs, adults, newId), q) ==
            if q in adults then Some((SeatPatrol(gs, newId), false)) else Row(gs, q)
  {
    hide PI.PatrolsOk, Row, Distinct;
    if FirstAdult(gs) < |gs| {
      PlaceAllRow(profiles, gs, FirstAdult(gs), adults, q);
    } else {
      NewPatrolRow(profiles, gs, adults, newId, q);
    }
  }

  lemma SeatedTable(profiles: map<Id, Profile>, gs: seq<CookingPatrol>, adults: seq<Id>, newId: Id)
    requires PI.PatrolsOk(profiles, gs) && Distinct(adults) && forall p | p in adults :: IsAdultIn(profiles, p)
    ensures SeatedIn(TableOf(gs), TableOf(EnableCooking(gs, adults, newId)), SeatPatrol(gs, newId), adults)
  {
    hide PI.PatrolsOk, Row, Distinct, TableOf, EnableCooking, SeatPatrol;
    var after, g := EnableCooking(gs, adults, newId), SeatPatrol(gs, newId);
    forall q
      ensures if q in adults then q in TableOf(after) && TableOf(after)[q] == (g, false)
              else (q in TableOf(after) <==> q in TableOf(gs))
                   && (q in TableOf(after) ==> TableOf(after)[q] == TableOf(gs)[q])
    {
      SeatedRow(profiles, gs, adults, newId, q);
      TableHolds(gs, q);
      TableHolds(after, q);
    }
  }

  /** The adults given are in the adult patrol, which is new if there was none. */
  lemma EnableCookingMeaning(profiles: map<Id, Profile>, gs: seq<CookingPatrol>, adults: seq<Id>, newId: Id)
    requires PI.PatrolsOk(profiles, gs) && Distinct(adults) && forall p | p in adults :: IsAdultIn(profiles, p)
    ensures var after, g := EnableCooking(gs, adults, newId), SeatPatrol(gs, newId);
            && Extends(gs, after) && IsAdultPatrol(after, g) && SeatedIn(TableOf(gs), TableOf(after), g, adults)
            && (HasAdultPatrol(gs) ==> |after| == |gs|)
            && (!HasAdultPatrol(gs) ==> |after| == |gs| + 1 && g == newId && after[|gs|].name == "Adults")
  {
    SeatedTable(profiles, gs, adults, newId);
    hide PI.PatrolsOk, TableOf, SeatedIn, PlaceAll, Distinct;
    var k := FirstAdult(gs);
    var after, g := EnableCooking(gs, adults, newId), SeatPatrol(gs, newId);
    if k < |gs| {
      PlaceAllKeepsGroups(gs, k, adults);
      assert after[k].id == g && after[k].kind;
    } else {
      assert after[|gs|].id == g && after[|gs|].kind;
    }
  }

  // ----- The edit -----

  /** The profile is an adult and attends the event. */
  predicate AdultAttends(profiles: map<Id, Profile>, s: Store, e: Id, p: Id) {
    p in ListOf(s.attendees, e) && p in profiles && profiles[p].memberType == Adult
  }

  /** Only the event itself and its patrols may differ. */
  ghost predicate OnlyPatrolsOf(s: Store, s': Store, e: Id) {
    && s' == s.(events := s'.events, patrols := s'.patrols)
    && forall x | x != e :: ListOf(s'.patrols, x) == ListOf(s.patrols, x)
  }

  /** An edit stores the event. While cooking stays as it was it changes nothing else. Switching cooking off takes the
      event's patrols away. Switching it on keeps every patrol and puts the attending adults, and nobody else, into the
      adult patrol as non-cooks, creating it if there is none. An edit of an unknown event does nothing. */
  lemma HandleEditMeaning(profiles: map<Id, Profile>, s: Store, e: Id, info: EventInfo, newId: Id)
    requires Safe(profiles, s, None) && !Known(s.patrols, newId)
    ensures var s' := HandleEdit(profiles, s, e, info, newId);
            if e !in s.events then s' == s
            else if s.events[e].cooking == info.cooking then s' == s.(events := s.events[e := info])
            else
              && s'.events == s.events[e := info] && OnlyPatrolsOf(s, s', e)
              && (!info.cooking ==> ListOf(s'.patrols, e) == [])
              && (info.cooking ==> CookingSwitchedOn(profiles, s, s', e))
  {
    hide Safe, EnableCooking, AdultsOf, Extends, TableOf;
    if e in s.events && s.events[e].cooking != info.cooking && info.cooking {
      SwitchedOn(profiles, s, e, info, newId);
    }
  }

  ghost predicate CookingSwitchedOn(profiles: map<Id, Profile>, s: Store, s': Store, e: Id) {
    var before, after := ListOf(s.patrols, e), ListOf(s'.patrols, e);
    Extends(before, after) && exists g, adults ::
      && IsAdultPatrol(after, g) && SeatedIn(TableOf(before), TableOf(after), g, adults)
      && forall p :: p in adults <==> AdultAttends(profiles, s, e, p)
  }

  lemma SwitchedOn(profiles: map<Id, Profile>, s: Store, e: Id, info: EventInfo, newId: Id)
    requires Safe(profiles, s, None) && !Known(s.patrols, newId) && e in s.events
    requires !s.events[e].cooking && info.cooking
    ensures CookingSwitchedOn(profiles, s, HandleEdit(profiles, s, e, info, newId), e)
  {
    var adults := AdultsOf(profiles, ListOf(s.attendees, e));
    PatrolsWellFormed(profiles, s, e);
    AdultsOfFacts(profiles, ListOf(s.attendees, e));
    hide Safe, EnableCooking, AdultsOf, Extends, TableOf, SeatedIn, IsAdultPatrol;
    EnableCookingMeaning(profiles, ListOf(s.patrols, e), adults, newId);
    var g := SeatPatrol(ListOf(s.patrols, e), newId);
    var s' := HandleEdit(profiles, s, e, info, newId);
    assert SeatedIn(TableOf(ListOf(s.patrols, e)), TableOf(ListOf(s'.patrols, e)), g, adults);
    forall p ensures p in adults <==> AdultAttends(profiles, s, e, p) {
      assert IsAdultIn(profiles, p) <==> p in profiles && profiles[p].memberType == Adult;
    }
  }

  lemma PatrolsWellFormed(profiles: map<Id, Profile>, s: Store, e: Id)
    requires Safe(profiles, s, None)
    ensures PI.PatrolsOk(profiles, ListOf(s.patrols, e)) && Distinct(ListOf(s.attendees, e))
  {
    EmptyPatrolsOk(profiles);
  }
}
