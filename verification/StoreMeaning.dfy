/** What the repository operations on tents, patrols and events do to the lists, in so many words. */
module StoreMeaning {
  import opened Common
  import opened Profiles
  import opened Names
  import opened Groups
  import opened GroupInvariants
  import opened StoreSpec
  import opened ServiceSpec
  import opened Logistics
  import opened TableRefinement

  // ----- Creation -----

  /** The number is that of some group, and no group has a higher one; it is 0 when no number is above 0. */
  ghost predicate TopNumber<K, F>(prefix: string, gs: seq<Group<K, F>>, top: int) {
    && top >= 0
    && (forall i, n | 0 <= i < |gs| && Number(prefix, gs[i].name) == Some(n) :: n <= top)
    && (top > 0 ==> exists i :: 0 <= i < |gs| && Number(prefix, gs[i].name) == Some(top))
  }

  lemma TopOfLonger<K, F>(prefix: string, gs: seq<Group<K, F>>, h: int, top: int)
    requires gs != [] && TopNumber(prefix, gs[..|gs| - 1], h)
    requires var n := Number(prefix, gs[|gs| - 1].name);
             top == if n.Some? && n.value > h then n.value else h
    ensures TopNumber(prefix, gs, top)
  {
    hide Number;
    var n := |gs| - 1;
    forall i, m | 0 <= i < |gs| && Number(prefix, gs[i].name) == Some(m) ensures m <= top {
      assert i < n ==> gs[..n][i] == gs[i];
    }
    if top > h {
      assert Number(prefix, gs[n].name) == Some(top);
    } else if h > 0 {
      var i :| 0 <= i < n && Number(prefix, gs[..n][i].name) == Some(h);
      assert gs[i] == gs[..n][i];
    }
  }

  lemma {:induction false} HighestIsTop<K, F>(prefix: string, gs: seq<Group<K, F>>)
    ensures TopNumber(prefix, gs, Highest(prefix, gs))
  {
    hide Number, TopNumber;
    if gs != [] {
      HighestIsTop(prefix, gs[..|gs| - 1]);
      TopOfLonger(prefix, gs, Highest(prefix, gs[..|gs| - 1]), Highest(prefix, gs));
    } else {
      NoNumbers(prefix, gs);
    }
  }

  lemma NoNumbers<K, F>(prefix: string, gs: seq<Group<K, F>>)
    requires gs == []
    ensures TopNumber(prefix, gs, 0)
  {
  }

  /** The list is the old one and one more group: empty, with the new identifier, and numbered one above the highest
      number. After the largest Go int comes the smallest. */
  ghost predicate OneMore<K, F>(before: seq<Group<K, F>>, after: seq<Group<K, F>>, prefix: string, newId: Id) {
    && |after| == |before| + 1 && after[..|before|] == before
    && after[|before|].id == newId && after[|before|].members == []
    && exists top :: TopNumber(prefix, before, top)
                     && after[|before|].name ==
                        prefix + Itoa(if top == 0x7FFF_FFFF_FFFF_FFFF then -0x8000_0000_0000_0000 else top + 1)
  }

  lemma NamedAfterTop<K, F>(prefix: string, gs: seq<Group<K, F>>, g: Group<K, F>)
    requires g.name == FreshName(prefix, gs) && g.members == []
    ensures OneMore(gs, gs + [g], prefix, g.id)
  {
    HighestIsTop(prefix, gs);
    var top := Highest(prefix, gs);
    assert TopNumber(prefix, gs, top) && g.name == prefix + Itoa(Increment(top));
  }

  /** A known event gets one more empty tent; nothing else changes. */
  lemma CreateTentMeaning(s: Store, e: Id, newId: Id)
    ensures var (s', reply) := CreateTent(s, e, newId);
            if e in s.events then
              && reply == Done && s' == s.(tents := s.tents[e := ListOf(s'.tents, e)])
              && OneMore(ListOf(s.tents, e), ListOf(s'.tents, e), "Tent ", newId)
            else s' == s && reply == Failed(EventNotFound)
  {
    var gs := ListOf(s.tents, e);
    NamedAfterTop(TENT_PREFIX, gs, Group(newId, FreshName(TENT_PREFIX, gs), (), []));
  }

  /** A known event gets one more empty patrol: a numbered one for youths, or the one of the adults if there is none. */
  lemma CreatePatrolMeaning(s: Store, e: Id, isAdult: bool, newId: Id)
    ensures var (s', reply) := CreateCookingPatrol(s, e, isAdult, newId);
            var before, after := ListOf(s.patrols, e), ListOf(s'.patrols, e);
            var hasAdults := exists g :: g in before && g.kind;
            if e !in s.events then s' == s && reply == Failed(EventNotFound)
            else if isAdult && hasAdults then s' == s && reply == Failed(AdultPatrolExists)
            else
              && reply == Done && s' == s.(patrols := s.patrols[e := after])
              && (isAdult ==> after == before + [Group(newId, "Adults", true, [])])
              && (!isAdult ==> OneMore(before, after, "Cooking ", newId) && !after[|before|].kind)
  {
    var gs := ListOf(s.patrols, e);
    if !isAdult {
      NamedAfterTop(PATROL_PREFIX, gs, Group(newId, FreshName(PATROL_PREFIX, gs), false, []));
    }
    assert HasAdultPatrol(gs) <==> exists g :: g in gs && g.kind by {
      if g :| g in gs && g.kind {
        var i :| 0 <= i < |gs| && gs[i] == g;
      }
      if i :| 0 <= i < |gs| && gs[i].kind {
        assert gs[i] in gs;
      }
    }
  }

  // ----- Deletion -----

  /** The groups with another identifier, in their order. */
  function Others<K, F>(gs: seq<Group<K, F>>, id: Id): seq<Group<K, F>> {
    if gs == [] then []
    else if gs[0].id == id then Others(gs[1..], id) else [gs[0]] + Others(gs[1..], id)
  }

  lemma {:induction false} NoneToDrop<K, F>(gs: seq<Group<K, F>>, id: Id)
    requires Find(gs, id) == |gs|
    ensures Others(gs, id) == gs
  {
    if gs != [] {
      assert gs[0].id != id;
      assert Find(gs[1..], id) == |gs[1..]|;
      NoneToDrop(gs[1..], id);
    }
  }

  lemma {:induction false} DroppedAreOthers<K, F>(gs: seq<Group<K, F>>, id: Id)
    requires DistinctIds(gs)
    ensures DropGroup(gs, id) == Others(gs, id)
  {
    if gs != [] {
      if gs[0].id == id {
        forall i | 0 <= i < |gs[1..]| ensures gs[1..][i].id != id {
          assert gs[i + 1].id != gs[0].id;
        }
        NoneToDrop(gs[1..], id);
        assert Find(gs, id) == 0;
      } else {
        DroppedAreOthers(gs[1..], id);
        var k := Find(gs[1..], id);
        assert Find(gs, id) == k + 1;
        if k < |gs[1..]| {
          assert gs[..k + 1] + gs[k + 2..] == [gs[0]] + (gs[1..][..k] + gs[1..][k + 1..]);
        }
      }
    }
  }

  ghost predicate Occurs<K, F>(m: map<Id, seq<Group<K, F>>>, id: Id) {
    exists e, g :: e in m && g in m[e] && g.id == id
  }

  lemma KnownOccurs<K, F>(m: map<Id, seq<Group<K, F>>>, id: Id)
    ensures Known(m, id) <==> Occurs(m, id)
  {
    if e :| e in m && Find(m[e], id) < |m[e]| {
      assert m[e][Find(m[e], id)] in m[e];
    }
    if e, g :| e in m && g in m[e] && g.id == id {
      var i :| 0 <= i < |m[e]| && m[e][i] == g;
      assert Find(m[e], id) <= i;
    }
  }

  lemma DroppedEverywhere<K, F>(m: map<Id, seq<Group<K, F>>>, id: Id, e: Id)
    requires UniqueIds(m)
    ensures ListOf(DropGroupIn(m, id), e) == Others(ListOf(m, e), id)
  {
    if e in m {
      UniqueIdsLocal(m, e);
      DroppedAreOthers(m[e], id);
    }
  }

  /** Deleting a tent takes the tent with the identifier out of the list that has it; the others stay in order. */
  lemma DeleteTentMeaning(profiles: map<Id, Profile>, s: Store, t: Id)
    requires ListsOk(profiles, s)
    ensures var (s', reply) := DeleteTent(s, t);
            && reply == (if Occurs(s.tents, t) then Done else Failed(TentNotFound))
            && s' == s.(tents := s'.tents) && s'.tents.Keys == s.tents.Keys
            && forall e :: ListOf(s'.tents, e) == Others(ListOf(s.tents, e), t)
  {
    KnownOccurs(s.tents, t);
    forall e ensures ListOf(DropGroupIn(s.tents, t), e) == Others(ListOf(s.tents, e), t) {
      DroppedEverywhere(s.tents, t, e);
    }
    if !Known(s.tents, t) {
      UnknownStays(s.tents, t);
    }
  }

  /** And so with a patrol. */
  lemma DeletePatrolMeaning(profiles: map<Id, Profile>, s: Store, g: Id)
    requires ListsOk(profiles, s)
    ensures var (s', reply) := DeleteCookingPatrol(s, g);
            && reply == (if Occurs(s.patrols, g) then Done else Failed(PatrolNotFound))
            && s' == s.(patrols := s'.patrols) && s'.patrols.Keys == s.patrols.Keys
            && forall e :: ListOf(s'.patrols, e) == Others(ListOf(s.patrols, e), g)
  {
    KnownOccurs(s.patrols, g);
    forall e ensures ListOf(DropGroupIn(s.patrols, g), e) == Others(ListOf(s.patrols, e), g) {
      DroppedEverywhere(s.patrols, g, e);
    }
    if !Known(s.patrols, g) {
      UnknownStays(s.patrols, g);
    }
  }

  /** Deleting an event takes it away with its attendance, and nothing of any other event. */
  lemma DeleteEventMeaning(s: Store, e: Id)
    ensures var (s', reply) := DeleteEvent(s, e);
            if e in s.events then
              && reply == Done && s'.events == s.events - {e}
              && ListOf(s'.attendees, e) == [] && ListOf(s'.withdrawn, e) == []
              && (forall x | x != e :: ListOf(s'.attendees, x) == ListOf(s.attendees, x)
                                       && ListOf(s'.withdrawn, x) == ListOf(s.withdrawn, x))
              && s'.duties == s.duties && s'.patrols == s.patrols && s'.tents == s.tents
            else s' == s && reply == Failed(EventNotFound)
  {
  }

  // ----- Moving people leaves the groups alone -----

  /** The same groups in the same places: identifiers, names and kinds. */
  ghost predicate SameGroups<K, F>(before: seq<Group<K, F>>, after: seq<Group<K, F>>) {
    |after| == |before| && forall i | 0 <= i < |before| ::
      after[i].id == before[i].id && after[i].name == before[i].name && after[i].kind == before[i].kind
  }

  lemma {:induction false} PullFirstKeepsGroups<K, F>(gs: seq<Group<K, F>>, p: Id)
    ensures SameGroups(gs, PullFirst(gs, p))
  {
    if gs != [] && !Has(gs[0], p) {
      PullFirstKeepsGroups(gs[1..], p);
      var rest := PullFirst(gs[1..], p);
      forall i | 0 <= i < |gs|
        ensures PullFirst(gs, p)[i].id == gs[i].id && PullFirst(gs, p)[i].name == gs[i].name
        ensures PullFirst(gs, p)[i].kind == gs[i].kind
      {
        assert i > 0 ==> PullFirst(gs, p)[i] == rest[i - 1] && gs[1..][i - 1] == gs[i];
      }
    }
  }

  lemma PlaceKeepsGroups<K, F>(gs: seq<Group<K, F>>, k: nat, p: Id, flag: F)
    requires k < |gs|
    ensures SameGroups(gs, PlaceAt(gs, k, p, flag))
  {
  }

  lemma SameAsItself<K, F>(gs: seq<Group<K, F>>)
    ensures SameGroups(gs, gs)
  {
  }

  lemma AssignKeepsTents(profiles: map<Id, Profile>, s: Store, e: Id, t: Id, p: Id, x: Id)
    ensures SameGroups(ListOf(s.tents, x), ListOf(AssignTentMember(profiles, s, e, t, p).0.tents, x))
  {
    hide SameGroups, PlaceAt;
    SameAsItself(ListOf(s.tents, x));
    var gs := ListOf(s.tents, e);
    if Find(gs, t) < |gs| {
      PlaceKeepsGroups(gs, Find(gs, t), p, ());
    }
  }

  lemma RemoveKeepsTents(s: Store, e: Id, p: Id, x: Id)
    ensures SameGroups(ListOf(s.tents, x), ListOf(RemoveTentMember(s, e, p).tents, x))
  {
    hide SameGroups, PullFirst;
    SameAsItself(ListOf(s.tents, x));
    PullFirstKeepsGroups(ListOf(s.tents, e), p);
  }

  /** Assigning and removing members neither creates nor deletes nor renames a tent. */
  lemma TentMovesKeepTents(profiles: map<Id, Profile>, s: Store, e: Id, t: Id, p: Id, x: Id)
    ensures SameGroups(ListOf(s.tents, x), ListOf(AssignTentMember(profiles, s, e, t, p).0.tents, x))
    ensures SameGroups(ListOf(s.tents, x), ListOf(RemoveTentMember(s, e, p).tents, x))
  {
    hide SameGroups, AssignTentMember, RemoveTentMember;
    AssignKeepsTents(profiles, s, e, t, p, x);
    RemoveKeepsTents(s, e, p, x);
  }

  lemma AssignKeepsPatrols(profiles: map<Id, Profile>, s: Store, e: Id, g: Id, p: Id, x: Id)
    ensures SameGroups(ListOf(s.patrols, x), ListOf(AssignCookingPatrolMember(profiles, s, e, g, p).0.patrols, x))
  {
    hide SameGroups, PlaceAt;
    SameAsItself(ListOf(s.patrols, x));
    var gs := ListOf(s.patrols, e);
    if Find(gs, g) < |gs| {
      PlaceKeepsGroups(gs, Find(gs, g), p, false);
    }
  }

  lemma RemoveKeepsPatrols(s: Store, e: Id, p: Id, x: Id)
    ensures SameGroups(ListOf(s.patrols, x), ListOf(RemoveCookingPatrolMember(s, e, p).patrols, x))
  {
    hide SameGroups, PullFirst;
    SameAsItself(ListOf(s.patrols, x));
    PullFirstKeepsGroups(ListOf(s.patrols, e), p);
  }

  /** Nor does it touch a patrol. */
  lemma PatrolMovesKeepPatrols(profiles: map<Id, Profile>, s: Store, e: Id, g: Id, p: Id, x: Id)
    ensures SameGroups(ListOf(s.patrols, x), ListOf(AssignCookingPatrolMember(profiles, s, e, g, p).0.patrols, x))
    ensures SameGroups(ListOf(s.patrols, x), ListOf(RemoveCookingPatrolMember(s, e, p).patrols, x))
  {
    hide SameGroups, AssignCookingPatrolMember, RemoveCookingPatrolMember;
    AssignKeepsPatrols(profiles, s, e, g, p, x);
    RemoveKeepsPatrols(s, e, p, x);
  }

  lemma ReflagKeepsGroups(gs: seq<CookingPatrol>, g: Id, only: Option<Id>)
    ensures SameGroups(gs, ReflagGroup(gs, g, only))
  {
  }

  /** Nor does setting or clearing a cook. */
  lemma CooksKeepPatrols(s: Store, e: Id, g: Id, p: Id, x: Id)
    ensures SameGroups(ListOf(s.patrols, x), ListOf(SetCookingPatrolCook(s, e, g, p).0.patrols, x))
    ensures SameGroups(ListOf(s.patrols, x), ListOf(ClearCookingPatrolCook(s, g).patrols, x))
  {
    hide ReflagGroup, SameGroups;
    ReflagKeepsGroups(ListOf(s.patrols, x), g, Some(p));
    ReflagKeepsGroups(ListOf(s.patrols, x), g, None);
    SameAsItself(ListOf(s.patrols, x));
  }

  lemma SameGroupsTwice<K, F>(a: seq<Group<K, F>>, b: seq<Group<K, F>>, c: seq<Group<K, F>>)
    requires SameGroups(a, b) && SameGroups(b, c)
    ensures SameGroups(a, c)
  {
  }

  lemma {:induction false} ClearedCooksKeepPatrols(s: Store, listed: seq<CookingPatrol>, p: Id, x: Id)
    ensures SameGroups(ListOf(s.patrols, x), ListOf(ClearCooksHeld(s, listed, p).patrols, x))
    ensures ClearCooksHeld(s, listed, p).tents == s.tents
  {
    hide SameGroups, ClearCookingPatrolCook;
    if listed == [] {
      SameAsItself(ListOf(s.patrols, x));
    } else {
      var n := |listed| - 1;
      var mid := ClearCooksHeld(s, listed[..n], p);
      ClearedCooksKeepPatrols(s, listed[..n], p, x);
      if HoldsCook(listed[n], p) {
        CooksKeepPatrols(mid, x, listed[n].id, p, x);
        ClearedKeepsTents(mid, listed[n].id);
        SameGroupsTwice(ListOf(s.patrols, x), ListOf(mid.patrols, x),
                        ListOf(ClearCookingPatrolCook(mid, listed[n].id).patrols, x));
      }
    }
  }

  lemma ClearedKeepsTents(s: Store, g: Id)
    ensures ClearCookingPatrolCook(s, g).tents == s.tents
  {
  }

  lemma DutyKeepsGroups(s: Store, e: Id, p: Id, r: Responsibility)
    ensures RemoveResponsibility(s, e, p, r).patrols == s.patrols && RemoveResponsibility(s, e, p, r).tents == s.tents
  {
    hide Without;
  }

  lemma DutiesKeepGroups(s: Store, e: Id, p: Id)
    ensures DropDuties(s, e, p).patrols == s.patrols && DropDuties(s, e, p).tents == s.tents
  {
    hide RemoveResponsibility;
    var s0 := RemoveResponsibility(s, e, p, Driver);
    var s1 := RemoveResponsibility(s0, e, p, SPL);
    var s2 := RemoveResponsibility(s1, e, p, Coordinator);
    DutyKeepsGroups(s, e, p, Driver);
    DutyKeepsGroups(s0, e, p, SPL);
    DutyKeepsGroups(s1, e, p, Coordinator);
    DutyKeepsGroups(s2, e, p, MedicalOfficer);
    DutyKeepsGroups(RemoveResponsibility(s2, e, p, MedicalOfficer), e, p, Driver);
  }

  lemma LeavingKeepsPatrols(s: Store, e: Id, p: Id, x: Id)
    ensures SameGroups(ListOf(s.patrols, x), ListOf(LeavePatrol(s, e, p).0.patrols, x))
    ensures LeavePatrol(s, e, p).0.tents == s.tents
  {
    var listed := ListOf(s.patrols, e);
    var cleared := ClearCooksHeld(s, listed, p);
    RemovalKeepsTents(cleared, e, p);
    hide SameGroups, RemoveCookingPatrolMember, ClearCooksHeld;
    SameAsItself(ListOf(s.patrols, x));
    ClearedCooksKeepPatrols(s, listed, p, x);
    RemoveKeepsPatrols(cleared, e, p, x);
    SameGroupsTwice(ListOf(s.patrols, x), ListOf(cleared.patrols, x),
                    ListOf(RemoveCookingPatrolMember(cleared, e, p).patrols, x));
  }

  lemma RemovalKeepsTents(s: Store, e: Id, p: Id)
    ensures RemoveCookingPatrolMember(s, e, p).tents == s.tents
  {
  }

  lemma RemovalKeepsPatrols(s: Store, e: Id, p: Id)
    ensures RemoveTentMember(s, e, p).patrols == s.patrols
  {
  }

  lemma WithdrawnKeepsGroups(s: Store, e: Id, p: Id)
    ensures Withdraw(s, e, p).0.patrols == s.patrols && Withdraw(s, e, p).0.tents == s.tents
  {
  }

  /** A withdrawal takes a member out of a tent and a patrol, and no tent and no patrol with it. */
  lemma WithdrawalKeepsGroups(profiles: map<Id, Profile>, s: Store, e: Id, p: Id, x: Id)
    ensures SameGroups(ListOf(s.patrols, x), ListOf(HandleWithdraw(profiles, s, e, p).patrols, x))
    ensures SameGroups(ListOf(s.tents, x), ListOf(HandleWithdraw(profiles, s, e, p).tents, x))
  {
    hide SameGroups, Withdraw, DropDuties, LeavePatrol, RemoveTentMember;
    SameAsItself(ListOf(s.patrols, x));
    SameAsItself(ListOf(s.tents, x));
    var s0 := Withdraw(s, e, p).0;
    var s1 := DropDuties(s0, e, p);
    var s2 := LeavePatrol(s1, e, p).0;
    WithdrawnKeepsGroups(s, e, p);
    DutiesKeepGroups(s0, e, p);
    LeavingKeepsPatrols(s1, e, p, x);
    RemovalKeepsPatrols(s2, e, p);
    RemoveKeepsTents(s2, e, p, x);
  }

  // ----- Refusals -----

  /** An attendee of a known event is assigned to a tent of that event; any other assignment is refused, for the first
      of these reasons, and changes nothing. */
  lemma TentRefusals(profiles: map<Id, Profile>, s: Store, e: Id, t: Id, p: Id)
    ensures var (s', reply) := AssignTentMember(profiles, s, e, t, p);
            var reason := if e !in s.events then Some(EventNotFound)
                          else if forall g | g in ListOf(s.tents, e) :: g.id != t then Some(TentNotFound)
                          else if p !in profiles then Some(ProfileNotFound)
                          else if p !in ListOf(s.attendees, e) then Some(NotSignedUp) else None;
            match reason case Some(fault) => s' == s && reply == Failed(fault) case None => reply == Done
  {
    var gs := ListOf(s.tents, e);
    assert Find(gs, t) < |gs| ==> gs[Find(gs, t)] in gs;
  }

  lemma PatrolRefusals(profiles: map<Id, Profile>, s: Store, e: Id, g: Id, p: Id)
    ensures var (s', reply) := AssignCookingPatrolMember(profiles, s, e, g, p);
            var reason := if e !in s.events then Some(EventNotFound)
                          else if forall x | x in ListOf(s.patrols, e) :: x.id != g then Some(PatrolNotFound)
                          else if p !in profiles then Some(ProfileNotFound)
                          else if p !in ListOf(s.attendees, e) then Some(NotSignedUp) else None;
            match reason case Some(fault) => s' == s && reply == Failed(fault) case None => reply == Done
  {
    var gs := ListOf(s.patrols, e);
    assert Find(gs, g) < |gs| ==> gs[Find(gs, g)] in gs;
  }

  /** A sign-up or a withdrawal that does not concern a known event and profile changes nothing, and signing up twice or
      withdrawing without having signed up succeeds without effect. */
  lemma AttendanceRefusals(profiles: map<Id, Profile>, s: Store, e: Id, p: Id)
    ensures e !in s.events ==> SignUp(profiles, s, e, p) == (s, Failed(EventNotFound))
    ensures e in s.events && p !in profiles ==> SignUp(profiles, s, e, p) == (s, Failed(ProfileNotFound))
    ensures e in s.events && p in profiles && p in ListOf(s.attendees, e) ==> SignUp(profiles, s, e, p) == (s, Done)
    ensures e in s.events && p in profiles ==> SignUp(profiles, s, e, p).1 == Done
    ensures e !in s.events ==> Withdraw(s, e, p) == (s, Failed(EventNotFound))
    ensures e in s.events && p !in ListOf(s.attendees, e) ==> Withdraw(s, e, p) == (s, Done)
    ensures e in s.events ==> Withdraw(s, e, p).1 == Done
  {
  }
}
