/** Consequences of the sync relation: the final state, the fixpoint, order independence and undo. */
module SyncLaws {
  import opened Common
  import opened Profiles
  import opened Positions
  import opened RoleSpec
  import opened SyncSpec

  lemma OwnerIs(ps: People, id: Id, u: Id)
    requires PeopleOk(ps) && id in ps && ps[id].userId == Some(u)
    ensures OwnerOf(ps, u) == Some(id)
  {
  }

  lemma OwnerOwns(ps: People, u: Id)
    ensures OwnerOf(ps, u).Some? ==> OwnerOf(ps, u).value in ps && ps[OwnerOf(ps, u).value].userId == Some(u)
    ensures OwnerOf(ps, u).None? ==> forall id | id in ps :: ps[id].userId != Some(u)
  {
  }

  /** A profile that a sync has produced is what the next sync makes of it. */
  lemma FinalIsFixed(ro: Roster, p: Profile)
    ensures Final(ro, Final(ro, p)) == Final(ro, p)
    ensures Final(ro, p).id == p.id && Final(ro, p).bsaId == p.bsaId && Final(ro, p).userId == p.userId
  {
  }

  // ----- Final state -----

  /** Somebody listed has the ID. */
  ghost predicate Lists(list: seq<Member>, b: string) {
    exists m :: m in list && m.memberId == b
  }

  lemma RosterLists(adults: seq<Member>, youths: seq<Member>, pick: Option<Id>, b: string)
    ensures b in RosterOf(adults, youths, pick).members <==> Lists(adults + youths, b)
    ensures b in RosterOf(adults, youths, pick).adults <==> Lists(adults, b)
  {
    var m := Member(b, "", "", "", "", "", "", None, "");
    MergeMeaning(adults, youths, m);
  }

  /** After a sync with these rosters: nobody is lost or relinked, profiles without an ID are untouched but for the one
      that a member without an ID takes, the active profiles with an ID are exactly those somebody listed has, everybody
      listed with an ID has an active profile, and adult means listed among the adults. */
  lemma FinalState(ps: People, rs: RoleStore, adults: seq<Member>, youths: seq<Member>, pick: Option<Id>, ps': People,
                   rs': RoleStore, report: seq<Entry>)
    requires PeopleOk(ps) && Synced(ps, rs, RosterOf(adults, youths, pick), ps', rs', report)
    ensures forall id | id in ps :: id in ps' && ps'[id].bsaId == ps[id].bsaId && ps'[id].userId == ps[id].userId
    ensures forall id | id in ps && ps[id].bsaId == "" && pick != Some(id) :: ps'[id] == ps[id]
    ensures forall id | id in ps' && ps'[id].bsaId != "" ::
              ps'[id].status == Active <==> Lists(adults + youths, ps'[id].bsaId)
    ensures forall m | m in adults + youths ::
              exists id :: id in ps' && ps'[id].bsaId == m.memberId && (m.memberId != "" ==> ps'[id].status == Active)
    ensures forall id | id in ps' && ps'[id].bsaId != "" && Lists(adults + youths, ps'[id].bsaId) ::
              ps'[id].memberType == Adult <==> Lists(adults, ps'[id].bsaId)
  {
    var ro := RosterOf(adults, youths, pick);
    forall b ensures b in ro.members <==> Lists(adults + youths, b)
             ensures b in ro.adults <==> Lists(adults, b)
    {
      RosterLists(adults, youths, pick, b);
    }
    MergedRosterOk(adults, youths, pick);
    hide RosterOf, Lists;
    FinalOnRoster(ps, rs, ro, ps', rs', report);
    forall m | m in adults + youths
      ensures exists id :: id in ps' && ps'[id].bsaId == m.memberId && (m.memberId != "" ==> ps'[id].status == Active)
    {
      ListedHere(adults + youths, m);
      assert HasBsa(ps', m.memberId);
    }
  }

  lemma ListedHere(list: seq<Member>, m: Member)
    requires m in list
    ensures Lists(list, m.memberId)
  {
  }

  lemma FinalOnRoster(ps: People, rs: RoleStore, ro: Roster, ps': People, rs': RoleStore, report: seq<Entry>)
    requires PeopleOk(ps) && RosterOk(ro) && Synced(ps, rs, ro, ps', rs', report)
    ensures forall id | id in ps :: id in ps' && ps'[id].bsaId == ps[id].bsaId && ps'[id].userId == ps[id].userId
    ensures forall id | id in ps && ps[id].bsaId == "" && ro.pick != Some(id) :: ps'[id] == ps[id]
    ensures forall id | id in ps' && ps'[id].bsaId != "" :: ps'[id].status == Active <==> ps'[id].bsaId in ro.members
    ensures forall b | b in ro.members :: HasBsa(ps', b)
    ensures forall id | id in ps' && ps'[id].bsaId != "" && ps'[id].bsaId in ro.members ::
              ps'[id].memberType == Adult <==> ps'[id].bsaId in ro.adults
  {
  }

  // ----- The member without an ID -----

  ghost predicate OneUnidentified(ps: People) {
    forall a, b | a in ps && b in ps && ps[a].bsaId == ps[b].bsaId == "" :: a == b
  }

  /** The roster determines which profile every member takes if and only if all members have an ID or at most one
      profile lacks one. */
  lemma PickDeterminedIff(ps: People, members: map<string, Member>, adults: set<string>)
    ensures (forall x, y | PickOk(ps, Roster(members, adults, x)) && PickOk(ps, Roster(members, adults, y)) :: x == y)
       <==> "" !in members || OneUnidentified(ps)
  {
    forall x, y | PickOk(ps, Roster(members, adults, x)) && PickOk(ps, Roster(members, adults, y))
      ensures "" !in members || OneUnidentified(ps) ==> x == y
    {
      if "" !in members || OneUnidentified(ps) {
        PicksAgree(ps, members, adults, x, y);
      }
    }
    if "" in members && !OneUnidentified(ps) {
      var a, b :| a in ps && b in ps && ps[a].bsaId == ps[b].bsaId == "" && a != b;
      TwoPicks(ps, members, adults, a, b);
    }
  }

  lemma PicksAgree(ps: People, members: map<string, Member>, adults: set<string>, x: Option<Id>, y: Option<Id>)
    requires "" !in members || OneUnidentified(ps)
    requires PickOk(ps, Roster(members, adults, x)) && PickOk(ps, Roster(members, adults, y))
    ensures x == y
  {
    if "" in members && HasBsa(ps, "") {
      var a, b := x.value, y.value;
      assert a in ps && b in ps && ps[a].bsaId == ps[b].bsaId == "";
      assert a == b;
    }
  }

  lemma TwoPicks(ps: People, members: map<string, Member>, adults: set<string>, a: Id, b: Id)
    requires "" in members && a in ps && b in ps && ps[a].bsaId == ps[b].bsaId == "" && a != b
    ensures PickOk(ps, Roster(members, adults, Some(a))) && PickOk(ps, Roster(members, adults, Some(b)))
    ensures Option<Id>.Some(a) != Option<Id>.Some(b)
  {
  }

  /** A member without an ID overwrites either of two people without one: the lookup decides. */
  lemma EmptyIdTakesAnybody() returns (ps: People, m: Member, ann: Roster, bob: Roster)
    ensures PeopleOk(ps) && ps.Keys == {1, 2} && ps[1].firstName == "Ann" && ps[2].firstName == "Bob"
    ensures m.memberId == "" && m.firstName == "Cal"
    ensures ann == RosterOf([], [m], Some(1)) && bob == RosterOf([], [m], Some(2)) && PickOk(ps, ann) && PickOk(ps, bob)
    ensures Final(ann, ps[1]).firstName == "Cal" && Final(ann, ps[2]) == ps[2]
    ensures Final(bob, ps[1]) == ps[1] && Final(bob, ps[2]).firstName == "Cal"
  {
    m := Member("", "Cal", "", "", "", "", "", None, "");
    ps := map[1 := Profile(1, "", "Ann", "", "", "", "", "", ZERO_TIME, Youth, Active, None, ""),
              2 := Profile(2, "", "Bob", "", "", "", "", "", ZERO_TIME, Youth, Active, None, "")];
    ann, bob := RosterOf([], [m], Some(1)), RosterOf([], [m], Some(2));
    assert [m][..0] == [] && MergeYouths([], [m]) == map["" := m];
    assert ps[1].bsaId == "";
  }

  // ----- Fixpoint -----

  /** The second lookup of the empty ID finds the profile that the first sync wrote. */
  ghost predicate Refound(ps: People, ro: Roster, again: Roster) {
    again.pick.None? || again.pick == ro.pick || again.pick.value !in ps
  }

  /** What the second lookup of the empty ID can find. */
  lemma PickedAgain(ps: People, rs: RoleStore, ro: Roster, ps': People, rs': RoleStore, report: seq<Entry>,
                    again: Roster, id: Id)
    requires PeopleOk(ps) && Synced(ps, rs, ro, ps', rs', report)
    requires again == ro.(pick := again.pick) && PickOk(ps', again)
    requires id in ps' && ps'[id].bsaId == "" && "" in ro.members
    ensures again.pick.Some? && again.pick.value in ps' && ps'[again.pick.value].bsaId == ""
    ensures id in ps <==> ro.pick.Some?
    ensures id in ps ==> ps[id].bsaId == ""
    ensures id !in ps ==> again.pick == Some(id)
  {
    assert HasBsa(ps', "");
    if id in ps {
      FinalIsFixed(ro, ps[id]);
      assert HasBsa(ps, "");
    } else {
      assert CreatedOk(ps, ro, id, ps'[id]);
      var x := again.pick.value;
      if x in ps {
        FinalIsFixed(ro, ps[x]);
      }
      assert x !in ps ==> CreatedOk(ps, ro, x, ps'[x]);
    }
  }

  /** Which profiles the second sync takes: the same ones and the new ones, if the lookup finds the same profile. */
  lemma ListedAgain(ps: People, rs: RoleStore, ro: Roster, ps': People, rs': RoleStore, report: seq<Entry>,
                    again: Roster, id: Id)
    requires PeopleOk(ps) && Synced(ps, rs, ro, ps', rs', report) && id in ps'
    requires again == ro.(pick := again.pick) && PickOk(ps', again)
    ensures id !in ps ==> Listed(again, ps'[id])
    ensures id in ps && (Refound(ps, ro, again) || again.pick != Some(id)) && Listed(again, ps'[id]) ==>
              Listed(ro, ps[id])
    ensures id in ps && Refound(ps, ro, again) && Listed(ro, ps[id]) ==> Listed(again, ps'[id])
  {
    if ps'[id].bsaId == "" && "" in ro.members {
      PickedAgain(ps, rs, ro, ps', rs', report, again, id);
      PickedAgain(ps, rs, ro, ps', rs', report, again, again.pick.value);
    }
    if id in ps {
      FinalIsFixed(ro, ps[id]);
    } else {
      assert CreatedOk(ps, ro, id, ps'[id]);
    }
  }

  /** A profile the sync left behind is a fixed point of the next one, if the lookup finds the same profile. */
  lemma SyncedIsFixed(ps: People, rs: RoleStore, ro: Roster, ps': People, rs': RoleStore, report: seq<Entry>,
                      again: Roster, id: Id)
    requires PeopleOk(ps) && Synced(ps, rs, ro, ps', rs', report) && id in ps'
    requires again == ro.(pick := again.pick) && PickOk(ps', again)
    ensures Refound(ps, ro, again) || again.pick != Some(id) ==> Final(again, ps'[id]) == ps'[id]
  {
    ListedAgain(ps, rs, ro, ps', rs', report, again, id);
    if id in ps {
      FinalIsFixed(ro, ps[id]);
    } else {
      assert CreatedOk(ps, ro, id, ps'[id]);
    }
  }

  /** A registered profile after a sync was registered before it, with the same user and ID. */
  lemma RegisteredBefore(ps: People, rs: RoleStore, ro: Roster, ps': People, rs': RoleStore, report: seq<Entry>, id: Id)
    requires Synced(ps, rs, ro, ps', rs', report) && id in ps' && ps'[id].userId.Some?
    ensures id in ps && ps[id].userId == ps'[id].userId && ps[id].bsaId == ps'[id].bsaId
  {
    assert id !in ps ==> CreatedOk(ps, ro, id, ps'[id]);
  }

  lemma RolesAfterSync(ps: People, rs: RoleStore, ro: Roster, ps': People, rs': RoleStore, report: seq<Entry>, id: Id,
                       u: Id)
    requires PeopleOk(ps) && Synced(ps, rs, ro, ps', rs', report)
    requires id in ps && ps[id].userId == Some(u)
    ensures RoleNames(rs', u) ==
            if Listed(ro, ps[id]) then Reconciled(RoleNames(rs, u), Targets(ro.members[ps[id].bsaId].positions))
            else RoleNames(rs, u)
  {
    OwnerIs(ps, id, u);
  }

  /** Positions that would hand out a protected role. */
  function ProtectedTargets(ro: Roster, p: Profile): set<string> {
    if p.userId.Some? && Listed(ro, p) then Targets(ro.members[p.bsaId].positions) * PROTECTED else {}
  }

  lemma TouchedAgain(ps: People, rs: RoleStore, ro: Roster, ps': People, rs': RoleStore, report: seq<Entry>,
                     again: Roster, id: Id)
    requires PeopleOk(ps) && Synced(ps, rs, ro, ps', rs', report) && id in ps'
    requires again == ro.(pick := again.pick) && PickOk(ps', again) && Refound(ps, ro, again)
    ensures Touched(rs', again, ps'[id]) <==> ProtectedTargets(again, ps'[id]) != {}
  {
    SyncedIsFixed(ps, rs, ro, ps', rs', report, again, id);
    ListedAgain(ps, rs, ro, ps', rs', report, again, id);
    if ps'[id].userId.Some? && Listed(again, ps'[id]) {
      var u := ps'[id].userId.value;
      RegisteredBefore(ps, rs, ro, ps', rs', report, id);
      RolesAfterSync(ps, rs, ro, ps', rs', report, id, u);
      ReconcileIsStable(RoleNames(rs, u), Targets(ro.members[ps[id].bsaId].positions));
    }
  }

  lemma SameUserRoles(ps: People, rs: RoleStore, ro: Roster, ps1: People, rs1: RoleStore, rep1: seq<Entry>,
                      again: Roster, ps2: People, rs2: RoleStore, rep2: seq<Entry>, u: Id)
    requires PeopleOk(ps) && Synced(ps, rs, ro, ps1, rs1, rep1) && Synced(ps1, rs1, again, ps2, rs2, rep2)
    requires again == ro.(pick := again.pick) && Refound(ps, ro, again)
    ensures RoleNames(rs2, u) == RoleNames(rs1, u)
  {
    OwnerOwns(ps1, u);
    if OwnerOf(ps1, u).Some? {
      var id := OwnerOf(ps1, u).value;
      RegisteredBefore(ps, rs, ro, ps1, rs1, rep1, id);
      ListedAgain(ps, rs, ro, ps1, rs1, rep1, again, id);
      RolesAfterSync(ps, rs, ro, ps1, rs1, rep1, id, u);
      RolesAfterSync(ps1, rs1, again, ps2, rs2, rep2, id, u);
      if Listed(ro, ps[id]) {
        ReconcileIsStable(RoleNames(rs, u), Targets(ro.members[ps[id].bsaId].positions));
      }
    }
  }

  lemma NoNewcomers(ps: People, rs: RoleStore, ro: Roster, ps1: People, rs1: RoleStore, rep1: seq<Entry>, again: Roster,
                    ps2: People, rs2: RoleStore, rep2: seq<Entry>, id: Id)
    requires Synced(ps, rs, ro, ps1, rs1, rep1) && Synced(ps1, rs1, again, ps2, rs2, rep2) && id in ps2
    requires again == ro.(pick := again.pick)
    ensures id in ps1
  {
    assert id !in ps1 ==> CreatedOk(ps1, again, id, ps2[id]);
  }

  lemma ProfileAfterSecond(ps: People, rs: RoleStore, ro: Roster, ps1: People, rs1: RoleStore, rep1: seq<Entry>,
                           again: Roster, ps2: People, rs2: RoleStore, rep2: seq<Entry>, id: Id)
    requires PeopleOk(ps) && Synced(ps, rs, ro, ps1, rs1, rep1) && Synced(ps1, rs1, again, ps2, rs2, rep2)
    requires again == ro.(pick := again.pick) && id in ps1
    ensures id in ps2 && ps2[id] == Final(again, ps1[id])
    ensures Refound(ps, ro, again) || again.pick != Some(id) ==> ps2[id] == ps1[id]
  {
    SyncedIsFixed(ps, rs, ro, ps1, rs1, rep1, again, id);
  }

  lemma PickIsListed(ps: People, rs: RoleStore, ro: Roster, ps1: People, rs1: RoleStore, rep1: seq<Entry>,
                     again: Roster, ps2: People, rs2: RoleStore, rep2: seq<Entry>)
    requires Synced(ps, rs, ro, ps1, rs1, rep1) && Synced(ps1, rs1, again, ps2, rs2, rep2) && again.pick.Some?
    ensures var x := again.pick.value;
            x in ps1 && Listed(again, ps1[x]) && Final(again, ps1[x]) == OverlayIn(again, ps1[x])
  {
    assert ps1[again.pick.value].id == again.pick.value;
  }

  /** What a second sync with the same rosters does to the profiles: nothing, unless the empty ID is on the roster and
      its lookup finds another profile, which then is overwritten as well. */
  lemma PeopleAfterSecond(ps: People, rs: RoleStore, ro: Roster, ps1: People, rs1: RoleStore, rep1: seq<Entry>,
                          again: Roster, ps2: People, rs2: RoleStore, rep2: seq<Entry>)
    requires PeopleOk(ps) && Synced(ps, rs, ro, ps1, rs1, rep1) && Synced(ps1, rs1, again, ps2, rs2, rep2)
    requires again == ro.(pick := again.pick)
    ensures Refound(ps, ro, again) ==> ps2 == ps1
    ensures !Refound(ps, ro, again) ==>
              var x := again.pick.value; x in ps1 && Listed(again, ps1[x]) && ps2 == ps1[x := OverlayIn(again, ps1[x])]
  {
    hide Synced, PeopleOk, Final, Listed, OverlayIn;
    forall id | id in ps2 ensures id in ps1 {
      NoNewcomers(ps, rs, ro, ps1, rs1, rep1, again, ps2, rs2, rep2, id);
    }
    forall id | id in ps1
      ensures id in ps2 && ps2[id] == Final(again, ps1[id])
      ensures Refound(ps, ro, again) || again.pick != Some(id) ==> ps2[id] == ps1[id]
    {
      ProfileAfterSecond(ps, rs, ro, ps1, rs1, rep1, again, ps2, rs2, rep2, id);
    }
    if again.pick.Some? {
      PickIsListed(ps, rs, ro, ps1, rs1, rep1, again, ps2, rs2, rep2);
    }
  }

  lemma SecondReport(ps: People, rs: RoleStore, ro: Roster, ps1: People, rs1: RoleStore, rep1: seq<Entry>,
                     again: Roster, rs2: RoleStore, rep2: seq<Entry>)
    requires PeopleOk(ps) && Synced(ps, rs, ro, ps1, rs1, rep1) && Synced(ps1, rs1, again, ps1, rs2, rep2)
    requires again == ro.(pick := again.pick) && Refound(ps, ro, again)
    ensures rep2 == [] <==> forall id | id in ps1 :: ProtectedTargets(again, ps1[id]) == {}
  {
    forall id | id in ps1 ensures id in Reported(rep2) <==> ProtectedTargets(again, ps1[id]) != {} {
      TouchedAgain(ps, rs, ro, ps1, rs1, rep1, again, id);
    }
    if rep2 != [] {
      assert EntryOk(ps1, rs1, again, ps1, rep2[0]);
      assert rep2[0].profileId in Reported(rep2);
    }
  }

  /** A second sync with the same rosters changes no profile and no role, provided the lookup of an empty ID on the
      roster finds the same profile again. Its report is empty exactly when no registered member's positions name a
      protected role. */
  lemma SecondSyncChangesNothing(ps: People, rs: RoleStore, ro: Roster, ps1: People, rs1: RoleStore, rep1: seq<Entry>,
                                 again: Roster, ps2: People, rs2: RoleStore, rep2: seq<Entry>)
    requires PeopleOk(ps) && Synced(ps, rs, ro, ps1, rs1, rep1) && Synced(ps1, rs1, again, ps2, rs2, rep2)
    requires again == ro.(pick := again.pick) && Refound(ps, ro, again)
    ensures ps2 == ps1
    ensures forall u :: RoleNames(rs2, u) == RoleNames(rs1, u)
    ensures rep2 == [] <==> forall id | id in ps1 :: ProtectedTargets(again, ps1[id]) == {}
  {
    hide Synced;
    PeopleAfterSecond(ps, rs, ro, ps1, rs1, rep1, again, ps2, rs2, rep2);
    forall u ensures RoleNames(rs2, u) == RoleNames(rs1, u) {
      SameUserRoles(ps, rs, ro, ps1, rs1, rep1, again, ps2, rs2, rep2, u);
    }
    SecondReport(ps, rs, ro, ps1, rs1, rep1, again, rs2, rep2);
  }

  /** The profile that the empty ID finds already is what the roster makes of it. */
  ghost predicate Agrees(ro: Roster, ps: People) {
    ro.pick.Some? && ro.pick.value in ps && Final(ro, ps[ro.pick.value]) == ps[ro.pick.value]
  }

  /** The second sync leaves the profiles alone if and only if the lookup of the empty ID finds the same profile again
      or one that already agrees with the roster. */
  lemma SecondSyncIff(ps: People, rs: RoleStore, ro: Roster, ps1: People, rs1: RoleStore, rep1: seq<Entry>,
                      again: Roster, ps2: People, rs2: RoleStore, rep2: seq<Entry>)
    requires PeopleOk(ps) && Synced(ps, rs, ro, ps1, rs1, rep1) && Synced(ps1, rs1, again, ps2, rs2, rep2)
    requires again == ro.(pick := again.pick)
    ensures ps2 == ps1 <==> (Refound(ps, ro, again) || Agrees(again, ps1))
  {
    hide Synced;
    PeopleAfterSecond(ps, rs, ro, ps1, rs1, rep1, again, ps2, rs2, rep2);
    if !Refound(ps, ro, again) {
      var x := again.pick.value;
      assert ps2[x] == OverlayIn(again, ps1[x]);
    }
  }

  // ----- Undo -----

  /** The effect of a revert on the profile found under the snapshot's ID and on its user's roles. */
  ghost predicate RevertStep(ps: People, rs: RoleStore, id: Id, prior: Snapshot, added: set<string>,
                             removed: set<string>, ps': People, rs': RoleStore) {
    && id in ps && ps[id].bsaId == prior.bsaId
    && ps' == ps[id := Restore(ps[id], prior)]
    && forall u :: RoleNames(rs', u) ==
         if ps[id].userId == Some(u) then Reverted(RoleNames(rs, u), added, removed) else RoleNames(rs, u)
  }

  lemma RestoreInvertsFinal(ro: Roster, p: Profile)
    ensures Restore(Final(ro, p), SnapshotOf(p)) == p
  {
  }

  lemma EntryWithPrior(ps: People, rs: RoleStore, ro: Roster, ps1: People, rs1: RoleStore, report: seq<Entry>, r: Entry)
    requires Synced(ps, rs, ro, ps1, rs1, report) && r in report && r.before.Some?
    ensures r.profileId in ps && EntryFor(rs, ro, ps[r.profileId], r) && ps[r.profileId].bsaId == r.before.value.bsaId
    ensures r.profileId in ps1 && ps1[r.profileId] == Final(ro, ps[r.profileId])
  {
  }

  lemma RevertRestoresRoles(ps: People, rs: RoleStore, ro: Roster, ps1: People, rs1: RoleStore, report: seq<Entry>,
                            r: Entry, u: Id)
    requires PeopleOk(ps) && Synced(ps, rs, ro, ps1, rs1, report) && r in report && r.before.Some?
    requires r.profileId in ps && ps[r.profileId].userId == Some(u)
    ensures Reverted(RoleNames(rs1, u), Names(r.rolesAdded), Names(r.rolesRemoved)) == RoleNames(rs, u)
       <==> ProtectedTargets(ro, ps[r.profileId]) * RoleNames(rs, u) == {}
  {
    var p := ps[r.profileId];
    EntryWithPrior(ps, rs, ro, ps1, rs1, report, r);
    RolesAfterSync(ps, rs, ro, ps1, rs1, report, r.profileId, u);
    if Listed(ro, p) {
      var targets := Targets(ro.members[p.bsaId].positions);
      RevertRestoresIff(RoleNames(rs, u), targets);
      assert targets * RoleNames(rs, u) * PROTECTED == ProtectedTargets(ro, p) * RoleNames(rs, u);
    }
  }

  /** Reverting a report entry right after the sync restores the profile and leaves all others alone. It restores
      the user's roles exactly when no position is a protected role the user already held. */
  lemma RevertUndoesSync(ps: People, rs: RoleStore, ro: Roster, ps1: People, rs1: RoleStore, report: seq<Entry>,
                         r: Entry, ps2: People, rs2: RoleStore)
    requires PeopleOk(ps) && RosterOk(ro) && Synced(ps, rs, ro, ps1, rs1, report)
    requires r in report && r.before.Some?
    requires RevertStep(ps1, rs1, r.profileId, r.before.value, Names(r.rolesAdded), Names(r.rolesRemoved), ps2, rs2)
    ensures r.profileId in ps && r.profileId in ps1 && ps2 == ps1[r.profileId := ps[r.profileId]]
    ensures forall u | ps[r.profileId].userId != Some(u) :: RoleNames(rs2, u) == RoleNames(rs1, u)
    ensures forall u | ps[r.profileId].userId == Some(u) ::
              RoleNames(rs2, u) == RoleNames(rs, u) <==> ProtectedTargets(ro, ps[r.profileId]) * RoleNames(rs, u) == {}
  {
    EntryWithPrior(ps, rs, ro, ps1, rs1, report, r);
    var p := ps[r.profileId];
    FinalIsFixed(ro, p);
    RestoreInvertsFinal(ro, p);
    if p.userId.Some? {
      RevertRestoresRoles(ps, rs, ro, ps1, rs1, report, r, p.userId.value);
    }
  }

  // ----- Order independence -----

  /** Go's string order: the first differing character decides, a proper prefix comes first. */
  predicate StrLess(a: string, b: string) {
    b != "" && (a == "" || a[0] < b[0] || (a[0] == b[0] && StrLess(a[1..], b[1..])))
  }

  lemma {:induction false} StrLessIrreflexive(a: string)
    ensures !StrLess(a, a)
  {
    if a != "" {
      StrLessIrreflexive(a[1..]);
    }
  }

  lemma {:induction false} StrLessTransitive(a: string, b: string, c: string)
    requires StrLess(a, b) && StrLess(b, c)
    ensures StrLess(a, c)
  {
    if a != "" && a[0] == b[0] && b[0] == c[0] {
      StrLessTransitive(a[1..], b[1..], c[1..]);
    }
  }

  lemma {:induction false} StrLessTotal(a: string, b: string)
    ensures a == b || StrLess(a, b) || StrLess(b, a)
  {
    if a != "" && b != "" && a[0] == b[0] {
      StrLessTotal(a[1..], b[1..]);
      assert a == [a[0]] + a[1..] && b == [b[0]] + b[1..];
    }
  }

  /** The order of the report: by display name, then by member ID. */
  predicate EntryLess(r: Entry, s: Entry) {
    StrLess(r.name, s.name) || (r.name == s.name && StrLess(r.memberId, s.memberId))
  }

  lemma EntryLessTransitive(r: Entry, s: Entry, t: Entry)
    requires EntryLess(r, s) && EntryLess(s, t)
    ensures EntryLess(r, t)
  {
    if StrLess(r.name, s.name) && StrLess(s.name, t.name) {
      StrLessTransitive(r.name, s.name, t.name);
    } else if r.name == s.name && s.name == t.name {
      StrLessTransitive(r.memberId, s.memberId, t.memberId);
    }
  }

  lemma EntryLessAsymmetric(r: Entry, s: Entry)
    ensures EntryLess(r, s) ==> !EntryLess(s, r)
    ensures EntryLess(r, s) ==> !(r.name == s.name && r.memberId == s.memberId)
  {
    StrLessIrreflexive(r.name);
    StrLessIrreflexive(r.memberId);
    if EntryLess(r, s) && EntryLess(s, r) {
      EntryLessTransitive(r, s, r);
    }
  }

  lemma EntryLessTotal(r: Entry, s: Entry)
    ensures EntryLess(r, s) || EntryLess(s, r) || (r.name == s.name && r.memberId == s.memberId)
  {
    StrLessTotal(r.name, s.name);
    StrLessTotal(r.memberId, s.memberId);
  }

  ghost predicate ReportSorted(report: seq<Entry>) {
    forall i, j | 0 <= i < j < |report| :: EntryLess(report[i], report[j])
  }

  /** Equal up to generated identifiers and the order inside the role lists. */
  ghost predicate SameEntry(r: Entry, s: Entry) {
    && r.memberId == s.memberId && r.name == s.name && r.status == s.status
    && r.before == s.before && r.after == s.after
    && |r.rolesAdded| == |s.rolesAdded| && Names(r.rolesAdded) == Names(s.rolesAdded)
    && |r.rolesRemoved| == |s.rolesRemoved| && Names(r.rolesRemoved) == Names(s.rolesRemoved)
    && (r.status != Created ==> r.profileId == s.profileId)
  }

  lemma {:induction false} DistinctSize(list: seq<string>)
    requires Distinct(list)
    ensures |Names(list)| == |list|
  {
    if list != [] {
      var n := |list| - 1;
      DistinctSize(list[..n]);
      assert list == list[..n] + [list[n]];
      assert Names(list) == Names(list[..n]) + {list[n]};
    }
  }

  ghost predicate HasTwin(r: Entry, b: seq<Entry>) {
    exists s :: s in b && SameEntry(r, s)
  }

  ghost predicate Covered(a: seq<Entry>, b: seq<Entry>) {
    forall r {:trigger HasTwin(r, b)} | r in a :: HasTwin(r, b)
  }

  /** Two sorted reports with the same entries have them in the same places. */
  lemma {:induction false} SortedReportsMatch(a: seq<Entry>, b: seq<Entry>)
    requires ReportSorted(a) && ReportSorted(b) && Covered(a, b) && Covered(b, a)
    ensures |a| == |b| && forall i | 0 <= i < |a| :: SameEntry(a[i], b[i])
  {
    assert a != [] ==> HasTwin(a[0], b);
    assert b != [] ==> HasTwin(b[0], a);
    if a != [] {
      HeadsMatch(a, b);
      CoveredTail(a, b);
      CoveredTail(b, a);
      SortedReportsMatch(a[1..], b[1..]);
      forall i | 0 <= i < |a| ensures SameEntry(a[i], b[i]) {
        assert i > 0 ==> SameEntry(a[1..][i - 1], b[1..][i - 1]);
      }
    }
  }

  lemma HeadsMatch(a: seq<Entry>, b: seq<Entry>)
    requires a != [] && b != []
    requires ReportSorted(a) && ReportSorted(b) && Covered(a, b) && Covered(b, a)
    ensures SameEntry(a[0], b[0])
  {
    assert HasTwin(a[0], b) && HasTwin(b[0], a);
    var s :| s in b && SameEntry(a[0], s);
    var r :| r in a && SameEntry(b[0], r);
    FirstIsLeast(a, r);
    FirstIsLeast(b, s);
    SameKeyOrder(a[0], b[0], r, s);
  }

  lemma FirstIsLeast(a: seq<Entry>, r: Entry)
    requires ReportSorted(a) && r in a
    ensures r == a[0] || EntryLess(a[0], r)
  {
  }

  /** The least entry of one report pairs with the least entry of the other. */
  lemma SameKeyOrder(a0: Entry, b0: Entry, r: Entry, s: Entry)
    requires SameEntry(a0, s) && SameEntry(b0, r)
    requires r == a0 || EntryLess(a0, r)
    requires s == b0 || EntryLess(b0, s)
    ensures r == a0 && s == b0
  {
    EntryLessAsymmetric(a0, b0);
    EntryLessAsymmetric(b0, a0);
    EntryLessAsymmetric(a0, r);
    EntryLessAsymmetric(b0, s);
    assert EntryLess(a0, r) ==> EntryLess(a0, b0);
    assert EntryLess(b0, s) ==> EntryLess(b0, a0);
  }

  lemma CoveredTail(a: seq<Entry>, b: seq<Entry>)
    requires a != [] && b != [] && ReportSorted(a) && ReportSorted(b) && Covered(a, b) && SameEntry(a[0], b[0])
    ensures Covered(a[1..], b[1..])
  {
    forall r | r in a[1..] ensures HasTwin(r, b[1..]) {
      var i :| 0 <= i < |a[1..]| && a[1..][i] == r;
      assert a[i + 1] == r && HasTwin(r, b);
      EntryLessAsymmetric(a[0], r);
      var s :| s in b && SameEntry(r, s);
      var j :| 0 <= j < |b| && b[j] == s;
      assert j != 0;
      assert b[1..][j - 1] == s;
    }
  }

  /** A profile created by one sync has a twin created by the other. */
  lemma CreatedTwin(ps: People, rs: RoleStore, ro: Roster, ps1: People, rs1: RoleStore, rep1: seq<Entry>, ps2: People,
                    rs2: RoleStore, rep2: seq<Entry>, id: Id)
    returns (twin: Id)
    requires Synced(ps, rs, ro, ps1, rs1, rep1) && Synced(ps, rs, ro, ps2, rs2, rep2)
    requires id in ps1 && id !in ps
    ensures twin in ps2 && twin !in ps && ps1[id].(id := twin) == ps2[twin]
  {
    assert CreatedOk(ps, ro, id, ps1[id]);
    assert HasBsa(ps2, ps1[id].bsaId);
    twin :| twin in ps2 && ps2[twin].bsaId == ps1[id].bsaId;
    if twin in ps {
      FinalIsFixed(ro, ps[twin]);
    }
    assert twin !in ps ==> CreatedOk(ps, ro, twin, ps2[twin]);
  }

  lemma EntriesAgree(rs: RoleStore, ro: Roster, p: Profile, r: Entry, s: Entry)
    requires EntryFor(rs, ro, p, r) && EntryFor(rs, ro, p, s)
    ensures SameEntry(r, s)
  {
    DistinctSize(r.rolesAdded);
    DistinctSize(r.rolesRemoved);
    DistinctSize(s.rolesAdded);
    DistinctSize(s.rolesRemoved);
  }

  lemma EntryAt(ps: People, rs: RoleStore, ro: Roster, ps': People, rs': RoleStore, report: seq<Entry>,
                id: Id) returns (s: Entry)
    requires Synced(ps, rs, ro, ps', rs', report) && id in ps' && (id !in ps || Touched(rs, ro, ps[id]))
    ensures s in report && s.profileId == id && EntryOk(ps, rs, ro, ps', s)
  {
    assert id in Reported(report);
    var j :| 0 <= j < |report| && report[j].profileId == id;
    s := report[j];
  }

  lemma EntryIsOk(ps: People, rs: RoleStore, ro: Roster, ps': People, rs': RoleStore, report: seq<Entry>, r: Entry)
    requires Synced(ps, rs, ro, ps', rs', report) && r in report
    ensures EntryOk(ps, rs, ro, ps', r) && r.profileId in ps'
  {
    var i :| 0 <= i < |report| && report[i] == r;
  }

  /** What one sync did to a profile, another sync of the same roster did too. */
  lemma EntryCovered(ps: People, rs: RoleStore, ro: Roster, ps1: People, rs1: RoleStore, rep1: seq<Entry>, ps2: People,
                     rs2: RoleStore, rep2: seq<Entry>, r: Entry)
    returns (s: Entry)
    requires PeopleOk(ps) && Synced(ps, rs, ro, ps1, rs1, rep1) && Synced(ps, rs, ro, ps2, rs2, rep2)
    requires r in rep1
    ensures s in rep2 && SameEntry(r, s)
  {
    EntryIsOk(ps, rs, ro, ps1, rs1, rep1, r);
    var id := r.profileId;
    if id in ps {
      SameOld(ps, rs, ro, ps1, rs1, rep1, ps2, rs2, rep2, id);
      s := EntryAt(ps, rs, ro, ps2, rs2, rep2, id);
      EntriesAgree(rs, ro, ps[id], r, s);
    } else {
      id := CreatedTwin(ps, rs, ro, ps1, rs1, rep1, ps2, rs2, rep2, id);
      s := EntryAt(ps, rs, ro, ps2, rs2, rep2, id);
    }
  }

  lemma EntriesCovered(ps: People, rs: RoleStore, ro: Roster, ps1: People, rs1: RoleStore, rep1: seq<Entry>,
                       ps2: People, rs2: RoleStore, rep2: seq<Entry>)
    requires PeopleOk(ps) && Synced(ps, rs, ro, ps1, rs1, rep1) && Synced(ps, rs, ro, ps2, rs2, rep2)
    ensures Covered(rep1, rep2)
  {
    forall r | r in rep1 ensures HasTwin(r, rep2) {
      var s := EntryCovered(ps, rs, ro, ps1, rs1, rep1, ps2, rs2, rep2, r);
    }
  }

  lemma SameOld(ps: People, rs: RoleStore, ro: Roster, ps1: People, rs1: RoleStore, rep1: seq<Entry>, ps2: People,
                rs2: RoleStore, rep2: seq<Entry>, id: Id)
    requires PeopleOk(ps) && Synced(ps, rs, ro, ps1, rs1, rep1) && Synced(ps, rs, ro, ps2, rs2, rep2)
    requires id in ps
    ensures id in ps1 && id in ps2 && ps1[id] == ps2[id]
  {
  }

  lemma SameNew(ps: People, rs: RoleStore, ro: Roster, ps1: People, rs1: RoleStore, rep1: seq<Entry>, ps2: People,
                rs2: RoleStore, rep2: seq<Entry>, a: Id, b: Id)
    requires PeopleOk(ps) && Synced(ps, rs, ro, ps1, rs1, rep1) && Synced(ps, rs, ro, ps2, rs2, rep2)
    requires a in ps1 && b in ps2 && a !in ps && b !in ps && ps1[a].bsaId == ps2[b].bsaId
    ensures ps1[a].(id := b) == ps2[b]
  {
    assert CreatedOk(ps, ro, a, ps1[a]) && CreatedOk(ps, ro, b, ps2[b]);
  }

  lemma SameBsa(ps: People, rs: RoleStore, ro: Roster, ps1: People, rs1: RoleStore, rep1: seq<Entry>, ps2: People,
                rs2: RoleStore, rep2: seq<Entry>, a: Id)
    requires PeopleOk(ps) && Synced(ps, rs, ro, ps1, rs1, rep1) && Synced(ps, rs, ro, ps2, rs2, rep2)
    requires a in ps1
    ensures HasBsa(ps2, ps1[a].bsaId)
  {
    if a in ps {
      FinalIsFixed(ro, ps[a]);
      assert ps2[a].bsaId == ps1[a].bsaId;
    } else {
      assert CreatedOk(ps, ro, a, ps1[a]);
    }
  }

  lemma SameRoles(ps: People, rs: RoleStore, ro: Roster, ps1: People, rs1: RoleStore, rep1: seq<Entry>, ps2: People,
                  rs2: RoleStore, rep2: seq<Entry>, u: Id)
    requires PeopleOk(ps) && Synced(ps, rs, ro, ps1, rs1, rep1) && Synced(ps, rs, ro, ps2, rs2, rep2)
    ensures RoleNames(rs1, u) == RoleNames(rs2, u)
  {
  }

  /** Two syncs of the same roster agree on every profile, every role set and, once sorted, the report,
      up to the identifiers generated for new profiles: the order of the members does not matter. */
  lemma OrderDoesNotMatter(ps: People, rs: RoleStore, ro: Roster, ps1: People, rs1: RoleStore, rep1: seq<Entry>,
                           ps2: People, rs2: RoleStore, rep2: seq<Entry>)
    requires PeopleOk(ps) && Synced(ps, rs, ro, ps1, rs1, rep1) && Synced(ps, rs, ro, ps2, rs2, rep2)
    ensures forall id | id in ps :: id in ps1 && id in ps2 && ps1[id] == ps2[id]
    ensures forall a, b | a in ps1 && b in ps2 && a !in ps && b !in ps && ps1[a].bsaId == ps2[b].bsaId ::
              ps1[a].(id := b) == ps2[b]
    ensures forall a | a in ps1 :: HasBsa(ps2, ps1[a].bsaId)
    ensures forall u :: RoleNames(rs1, u) == RoleNames(rs2, u)
    ensures ReportSorted(rep1) && ReportSorted(rep2) ==>
              |rep1| == |rep2| && forall i | 0 <= i < |rep1| :: SameEntry(rep1[i], rep2[i])
  {
    hide Synced, ReportSorted, SameEntry, HasBsa, RoleNames, Covered;
    forall id | id in ps ensures id in ps1 && id in ps2 && ps1[id] == ps2[id] {
      SameOld(ps, rs, ro, ps1, rs1, rep1, ps2, rs2, rep2, id);
    }
    forall a, b | a in ps1 && b in ps2 && a !in ps && b !in ps && ps1[a].bsaId == ps2[b].bsaId
      ensures ps1[a].(id := b) == ps2[b]
    {
      SameNew(ps, rs, ro, ps1, rs1, rep1, ps2, rs2, rep2, a, b);
    }
    forall a | a in ps1 ensures HasBsa(ps2, ps1[a].bsaId) {
      SameBsa(ps, rs, ro, ps1, rs1, rep1, ps2, rs2, rep2, a);
    }
    forall u ensures RoleNames(rs1, u) == RoleNames(rs2, u) {
      SameRoles(ps, rs, ro, ps1, rs1, rep1, ps2, rs2, rep2, u);
    }
    EntriesCovered(ps, rs, ro, ps1, rs1, rep1, ps2, rs2, rep2);
    EntriesCovered(ps, rs, ro, ps2, rs2, rep2, ps1, rs1, rep1);
    if ReportSorted(rep1) && ReportSorted(rep2) {
      SortedReportsMatch(rep1, rep2);
    }
  }
}
