/** Reverting a whole sync, and the role that a revert takes away for good. */
module SyncUndo {
  import opened Common
  import opened Profiles
  import opened Positions
  import opened RoleSpec
  import opened SyncSpec
  import opened SyncLaws

  // ----- Reverting entry after entry -----

  /** The entries, in this order, are reverted one after the other. */
  ghost predicate RevertedAll(ps: People, rs: RoleStore, entries: seq<Entry>, ps': People, rs': RoleStore)
    decreases |entries|
  {
    if entries == [] then ps' == ps && forall u :: RoleNames(rs', u) == RoleNames(rs, u)
    else exists mid, roles :: RevertedLast(ps, rs, entries, mid, roles, ps', rs')
  }

  /** All but the last entry lead to the state in between, and the last one from there to the end. */
  ghost predicate RevertedLast(ps: People, rs: RoleStore, entries: seq<Entry>, mid: People, roles: RoleStore,
                               ps': People, rs': RoleStore)
    requires entries != []
    decreases |entries|, 0
  {
    var n := |entries| - 1;
    RevertedAll(ps, rs, entries[..n], mid, roles) && Undone(mid, roles, entries[n], ps', rs')
  }

  /** One revert: it writes the snapshot back to a profile with the snapshot's ID, whichever the lookup finds. */
  ghost predicate Undone(ps: People, rs: RoleStore, r: Entry, ps': People, rs': RoleStore) {
    && r.before.Some?
    && exists id ::
         RevertStep(ps, rs, id, r.before.value, Names(r.rolesAdded), Names(r.rolesRemoved), ps', rs')
  }

  /** The same profiles, with the same BSA IDs. */
  ghost predicate SameIds(ps: People, ps': People) {
    ps'.Keys == ps.Keys && forall id | id in ps :: ps'[id].bsaId == ps[id].bsaId
  }

  /** No two profiles have the ID. */
  ghost predicate Certain(ps: People, bsaId: string) {
    bsaId != "" || OneUnidentified(ps)
  }

  /** Entries of the report with a prior snapshot whose ID no two profiles have. */
  ghost predicate Undoable(ps1: People, report: seq<Entry>, entries: seq<Entry>) {
    && DistinctEntries(entries)
    && forall i | 0 <= i < |entries| ::
         entries[i] in report && entries[i].before.Some? && Certain(ps1, entries[i].before.value.bsaId)
  }

  // ----- Where a revert lands -----

  /** The ID of a snapshot leads to the profile of its entry and to no other if and only if it is not empty or at most
      one profile lacks an ID. */
  lemma RevertTargetIff(ps: People, rs: RoleStore, ro: Roster, ps1: People, rs1: RoleStore, report: seq<Entry>,
                        r: Entry)
    requires PeopleOk(ps) && Synced(ps, rs, ro, ps1, rs1, report) && r in report && r.before.Some?
    ensures r.profileId in ps1 && ps1[r.profileId].bsaId == r.before.value.bsaId
    ensures (forall id | id in ps1 && ps1[id].bsaId == r.before.value.bsaId :: id == r.profileId)
       <==> Certain(ps1, r.before.value.bsaId)
  {
    EntryWithPrior(ps, rs, ro, ps1, rs1, report, r);
    FinalIsFixed(ro, ps[r.profileId]);
  }

  /** So it is in every later state with the same IDs. */
  lemma RevertLands(ps: People, rs: RoleStore, ro: Roster, ps1: People, rs1: RoleStore, report: seq<Entry>, r: Entry,
                    later: People, id: Id)
    requires PeopleOk(ps) && Synced(ps, rs, ro, ps1, rs1, report) && r in report && r.before.Some?
    requires Certain(ps1, r.before.value.bsaId) && SameIds(ps1, later)
    requires id in later && later[id].bsaId == r.before.value.bsaId
    ensures id == r.profileId
  {
    hide Synced, PeopleOk;
    RevertTargetIff(ps, rs, ro, ps1, rs1, report, r);
  }

  // ----- All of them -----

  /** The entry of the profile that the user is linked to is the given one. */
  ghost predicate Owns(ps: People, u: Id, r: Entry) {
    r.profileId in ps && ps[r.profileId].userId == Some(u)
  }

  lemma ReportedFront(entries: seq<Entry>)
    requires entries != [] && DistinctEntries(entries)
    ensures var n := |entries| - 1;
            && Reported(entries) == Reported(entries[..n]) + {entries[n].profileId}
            && entries[n].profileId !in Reported(entries[..n]) && DistinctEntries(entries[..n])
  {
    var n := |entries| - 1;
    var front := entries[..n];
    forall id ensures id in Reported(entries) <==> id in Reported(front) + {entries[n].profileId} {
      if id in Reported(front) {
        var i :| 0 <= i < n && front[i].profileId == id;
        assert entries[i].profileId == id;
      }
      assert entries[n].profileId in Reported(entries);
    }
  }

  /** Undoing one more entry gives its profile back and leaves the others as they are. */
  lemma UndoOne(ps: People, rs: RoleStore, ro: Roster, ps1: People, rs1: RoleStore, report: seq<Entry>, r: Entry,
                mid: People, roles: RoleStore, ps2: People, rs2: RoleStore)
    requires PeopleOk(ps) && Synced(ps, rs, ro, ps1, rs1, report) && r in report
    requires Undone(mid, roles, r, ps2, rs2) && Certain(ps1, r.before.value.bsaId) && SameIds(ps1, mid)
    requires r.profileId in mid ==> r.profileId in ps1 && mid[r.profileId] == ps1[r.profileId]
    ensures r.profileId in ps && r.profileId in mid && ps2 == mid[r.profileId := ps[r.profileId]]
    ensures forall u :: RoleNames(rs2, u) ==
              if ps[r.profileId].userId == Some(u)
              then Reverted(RoleNames(roles, u), Names(r.rolesAdded), Names(r.rolesRemoved))
              else RoleNames(roles, u)
  {
    hide Synced, PeopleOk, Certain, SameIds;
    var id :| RevertStep(mid, roles, id, r.before.value, Names(r.rolesAdded), Names(r.rolesRemoved), ps2, rs2);
    RevertLands(ps, rs, ro, ps1, rs1, report, r, mid, id);
    EntryWithPrior(ps, rs, ro, ps1, rs1, report, r);
    FinalIsFixed(ro, ps[r.profileId]);
    RestoreInvertsFinal(ro, ps[r.profileId]);
  }

  /** Whatever the order, the profiles of the reverted entries are as before the sync and all others as after it. */
  lemma {:induction false} PeopleAfterUndo(ps: People, rs: RoleStore, ro: Roster, ps1: People, rs1: RoleStore,
                                           report: seq<Entry>, entries: seq<Entry>, ps2: People, rs2: RoleStore)
    requires PeopleOk(ps) && Synced(ps, rs, ro, ps1, rs1, report) && Undoable(ps1, report, entries)
    requires RevertedAll(ps1, rs1, entries, ps2, rs2)
    ensures Reported(entries) <= ps.Keys && SameIds(ps1, ps2)
    ensures forall id | id in ps1 :: ps2[id] == if id in Reported(entries) then ps[id] else ps1[id]
    decreases |entries|
  {
    hide Synced, PeopleOk, Undone, Certain;
    if entries == [] {
      assert Reported(entries) == {};
    } else {
      var n := |entries| - 1;
      var mid, roles :| RevertedLast(ps1, rs1, entries, mid, roles, ps2, rs2);
      ReportedFront(entries);
      PeopleAfterUndo(ps, rs, ro, ps1, rs1, report, entries[..n], mid, roles);
      UndoOne(ps, rs, ro, ps1, rs1, report, entries[n], mid, roles, ps2, rs2);
      EntryWithPrior(ps, rs, ro, ps1, rs1, report, entries[n]);
      FinalIsFixed(ro, ps[entries[n].profileId]);
    }
  }

  /** The roles of a user are reverted by the entry of the profile linked to that user, and by no other. */
  lemma {:induction false} RolesAfterUndo(ps: People, rs: RoleStore, ro: Roster, ps1: People, rs1: RoleStore,
                                          report: seq<Entry>, entries: seq<Entry>, ps2: People, rs2: RoleStore, u: Id)
    requires PeopleOk(ps) && Synced(ps, rs, ro, ps1, rs1, report) && Undoable(ps1, report, entries)
    requires RevertedAll(ps1, rs1, entries, ps2, rs2)
    ensures (forall i | 0 <= i < |entries| :: !Owns(ps, u, entries[i])) ==> RoleNames(rs2, u) == RoleNames(rs1, u)
    ensures forall i | 0 <= i < |entries| && Owns(ps, u, entries[i]) ::
              RoleNames(rs2, u) == Reverted(RoleNames(rs1, u), Names(entries[i].rolesAdded),
                                            Names(entries[i].rolesRemoved))
    decreases |entries|
  {
    hide Synced, Undone, Certain, RoleNames, Reverted;
    if entries != [] {
      var n := |entries| - 1;
      var mid, roles :| RevertedLast(ps1, rs1, entries, mid, roles, ps2, rs2);
      ReportedFront(entries);
      PeopleAfterUndo(ps, rs, ro, ps1, rs1, report, entries[..n], mid, roles);
      RolesAfterUndo(ps, rs, ro, ps1, rs1, report, entries[..n], mid, roles, u);
      EntryWithPrior(ps, rs, ro, ps1, rs1, report, entries[n]);
      UndoOne(ps, rs, ro, ps1, rs1, report, entries[n], mid, roles, ps2, rs2);
      OneOwner(ps, u, entries);
    }
  }

  /** At most one of the entries is that of the user's profile. */
  lemma OneOwner(ps: People, u: Id, entries: seq<Entry>)
    requires UniqueUsers(ps) && DistinctEntries(entries)
    ensures forall i, j | 0 <= i < j < |entries| :: !(Owns(ps, u, entries[i]) && Owns(ps, u, entries[j]))
  {
  }

  /** Among them are all entries whose snapshot has an ID; the handler refuses to revert the others. */
  ghost predicate Covers(ps1: People, report: seq<Entry>, entries: seq<Entry>) {
    && Undoable(ps1, report, entries)
    && forall r | r in report && r.before.Some? && r.before.value.bsaId != "" :: r in entries
  }

  /** The profile has an ID, or its entry is on the list all the same. */
  ghost predicate Recovered(entries: seq<Entry>, p: Profile) {
    p.bsaId != "" || p.id in Reported(entries)
  }

  lemma TouchedReverted(ps: People, rs: RoleStore, ro: Roster, ps1: People, rs1: RoleStore, report: seq<Entry>,
                        entries: seq<Entry>, id: Id)
    requires PeopleOk(ps) && Synced(ps, rs, ro, ps1, rs1, report) && Covers(ps1, report, entries)
    requires id in ps && id in ps1 && Touched(rs, ro, ps[id]) && ps[id].bsaId != ""
    ensures id in Reported(entries)
  {
    var s := EntryAt(ps, rs, ro, ps1, rs1, report, id);
    assert s in entries;
  }

  lemma NotReverted(ps: People, rs: RoleStore, ro: Roster, ps1: People, rs1: RoleStore, report: seq<Entry>,
                    entries: seq<Entry>, id: Id)
    requires PeopleOk(ps) && Synced(ps, rs, ro, ps1, rs1, report) && Covers(ps1, report, entries) && id in ps
    requires id !in Reported(entries) && ps[id].bsaId != ""
    ensures id in ps1 && ps1[id] == ps[id] && !Touched(rs, ro, ps[id])
  {
    if Touched(rs, ro, ps[id]) {
      TouchedReverted(ps, rs, ro, ps1, rs1, report, entries, id);
    }
  }

  lemma UserRestored(ps: People, rs: RoleStore, ro: Roster, ps1: People, rs1: RoleStore, report: seq<Entry>,
                     entries: seq<Entry>, ps2: People, rs2: RoleStore, id: Id, u: Id)
    requires PeopleOk(ps) && Synced(ps, rs, ro, ps1, rs1, report) && Covers(ps1, report, entries)
    requires RevertedAll(ps1, rs1, entries, ps2, rs2) && id in ps && ps[id].userId == Some(u)
    requires Recovered(entries, ps[id])
    ensures RoleNames(rs2, u) == RoleNames(rs, u) <==> ProtectedTargets(ro, ps[id]) * RoleNames(rs, u) == {}
  {
    RolesAfterUndo(ps, rs, ro, ps1, rs1, report, entries, ps2, rs2, u);
    if id in Reported(entries) {
      var i :| 0 <= i < |entries| && entries[i].profileId == id;
      RevertRestoresRoles(ps, rs, ro, ps1, rs1, report, entries[i], u);
      assert Owns(ps, u, entries[i]);
    } else {
      NotReverted(ps, rs, ro, ps1, rs1, report, entries, id);
      RolesAfterSync(ps, rs, ro, ps1, rs1, report, id, u);
      NobodyOwns(ps, u, entries, id);
      UntouchedRoles(rs, ro, ps[id]);
    }
  }

  lemma NobodyOwns(ps: People, u: Id, entries: seq<Entry>, id: Id)
    requires UniqueUsers(ps) && id in ps && ps[id].userId == Some(u) && id !in Reported(entries)
    ensures forall i | 0 <= i < |entries| :: !Owns(ps, u, entries[i])
  {
    forall i | 0 <= i < |entries| ensures !Owns(ps, u, entries[i]) {
      assert entries[i].profileId in Reported(entries);
    }
  }

  lemma UserKept(ps: People, rs: RoleStore, ro: Roster, ps1: People, rs1: RoleStore, report: seq<Entry>,
                 entries: seq<Entry>, ps2: People, rs2: RoleStore, id: Id, u: Id)
    requires PeopleOk(ps) && Synced(ps, rs, ro, ps1, rs1, report) && Undoable(ps1, report, entries)
    requires RevertedAll(ps1, rs1, entries, ps2, rs2) && id in ps && ps[id].userId == Some(u)
    requires !Recovered(entries, ps[id])
    ensures RoleNames(rs2, u) == RoleNames(rs1, u)
  {
    RolesAfterUndo(ps, rs, ro, ps1, rs1, report, entries, ps2, rs2, u);
    NobodyOwns(ps, u, entries, id);
  }

  /** A user whose roles the sync did not touch holds no protected role that the positions name. */
  lemma UntouchedRoles(rs: RoleStore, ro: Roster, p: Profile)
    requires !Touched(rs, ro, p) && p.userId.Some?
    ensures ProtectedTargets(ro, p) == {}
    ensures Listed(ro, p) ==> Reconciled(RoleNames(rs, p.userId.value),
                                         Targets(ro.members[p.bsaId].positions)) == RoleNames(rs, p.userId.value)
  {
    if Listed(ro, p) {
      var held, targets := RoleNames(rs, p.userId.value), Targets(ro.members[p.bsaId].positions);
      ReportedDifferences(held, targets);
      assert targets * PROTECTED <= Added(held, targets);
    }
  }

  lemma OthersKeepRoles(ps: People, rs: RoleStore, ro: Roster, ps1: People, rs1: RoleStore, report: seq<Entry>,
                        entries: seq<Entry>, ps2: People, rs2: RoleStore, u: Id)
    requires PeopleOk(ps) && Synced(ps, rs, ro, ps1, rs1, report) && Undoable(ps1, report, entries)
    requires RevertedAll(ps1, rs1, entries, ps2, rs2) && forall id | id in ps :: ps[id].userId != Some(u)
    ensures RoleNames(rs2, u) == RoleNames(rs, u)
  {
    RolesAfterUndo(ps, rs, ro, ps1, rs1, report, entries, ps2, rs2, u);
    OwnerOwns(ps, u);
  }

  /** Reverting all entries whose prior snapshot has an ID, in any order, and one without an ID too if only one profile
      lacks it, restores every profile there was but one whose entry is left out: that stays as the sync left it. It
      restores the roles of the user of a restored profile if and only if no position is a protected role the user
      already held. */
  lemma UndoEverything(ps: People, rs: RoleStore, ro: Roster, ps1: People, rs1: RoleStore, report: seq<Entry>,
                       entries: seq<Entry>, ps2: People, rs2: RoleStore)
    requires PeopleOk(ps) && Synced(ps, rs, ro, ps1, rs1, report) && Covers(ps1, report, entries)
    requires RevertedAll(ps1, rs1, entries, ps2, rs2)
    ensures forall id | id in ps ::
              id in ps1 && id in ps2 && ps2[id] == if Recovered(entries, ps[id]) then ps[id] else ps1[id]
    ensures forall id | id in ps2 && id !in ps :: id in ps1 && ps2[id] == ps1[id]
    ensures forall id, u | id in ps && ps[id].userId == Some(u) && Recovered(entries, ps[id]) ::
              RoleNames(rs2, u) == RoleNames(rs, u) <==> ProtectedTargets(ro, ps[id]) * RoleNames(rs, u) == {}
    ensures forall id, u | id in ps && ps[id].userId == Some(u) && !Recovered(entries, ps[id]) ::
              RoleNames(rs2, u) == RoleNames(rs1, u)
    ensures forall u | (forall id | id in ps :: ps[id].userId != Some(u)) :: RoleNames(rs2, u) == RoleNames(rs, u)
  {
    hide Synced, UniqueBsa, UniqueUsers, RevertedAll, ProtectedTargets, RoleNames, Certain;
    PeopleAfterUndo(ps, rs, ro, ps1, rs1, report, entries, ps2, rs2);
    forall id | id in ps
      ensures id in ps1 && id in ps2 && ps2[id] == if Recovered(entries, ps[id]) then ps[id] else ps1[id]
    {
      StillThere(ps, rs, ro, ps1, rs1, report, id);
      if Recovered(entries, ps[id]) && id !in Reported(entries) {
        NotReverted(ps, rs, ro, ps1, rs1, report, entries, id);
      }
    }
    forall id, u | id in ps && ps[id].userId == Some(u) && Recovered(entries, ps[id])
      ensures RoleNames(rs2, u) == RoleNames(rs, u) <==> ProtectedTargets(ro, ps[id]) * RoleNames(rs, u) == {}
    {
      UserRestored(ps, rs, ro, ps1, rs1, report, entries, ps2, rs2, id, u);
    }
    forall id, u | id in ps && ps[id].userId == Some(u) && !Recovered(entries, ps[id])
      ensures RoleNames(rs2, u) == RoleNames(rs1, u)
    {
      UserKept(ps, rs, ro, ps1, rs1, report, entries, ps2, rs2, id, u);
    }
    forall u | (forall id | id in ps :: ps[id].userId != Some(u)) ensures RoleNames(rs2, u) == RoleNames(rs, u) {
      OthersKeepRoles(ps, rs, ro, ps1, rs1, report, entries, ps2, rs2, u);
    }
  }

  lemma StillThere(ps: People, rs: RoleStore, ro: Roster, ps1: People, rs1: RoleStore, report: seq<Entry>, id: Id)
    requires Synced(ps, rs, ro, ps1, rs1, report) && id in ps
    ensures id in ps1
  {
  }

  // ----- A role that is lost -----

  lemma OneName(name: string)
    requires Clean(name) && name != ""
    ensures Targets(name) == {name}
  {
    assert Join([name]) == name;
    SplitInvertsJoin([name]);
  }

  lemma OneAdult(m: Member)
    ensures MergeYouths([m], []) == map[m.memberId := m] && MemberIds([m]) == {m.memberId}
  {
    assert [m][..0] == [];
    assert MergeAdults([m][..0]) == map[];
    assert MergeAdults([m]) == map[m.memberId := m];
  }

  lemma AdminRole(rs: RoleStore)
    requires rs == RoleStore(map[9 := "admin"], map[5 := [9]])
    ensures RoleNames(rs, 5) == {"admin"}
  {
    assert ListOf(rs.userRoles, 5) == [9] && 9 in [9];
    assert NamesIn(rs.roles, [9]) == {"admin"};
  }

  const ADMIN_MEMBER := Member("7", "Ann", "", "", "", "", "", None, "admin")
  const ADMIN_PROFILE := Profile(1, "7", "Ann", "", "", "", "", "", ZERO_TIME, Adult, Active, Some(5), "admin")
  const ADMIN_ROLES := RoleStore(map[9 := "admin"], map[5 := [9]])
  const NO_ROLES := RoleStore(map[9 := "admin"], map[5 := []])

  function AdminRoster(): Roster {
    RosterOf([ADMIN_MEMBER], [], None)
  }

  function AdminEntry(): Entry {
    Entry(1, "7", DisplayName(ADMIN_PROFILE), RolesOnly, Some(SnapshotOf(ADMIN_PROFILE)), SnapshotOf(ADMIN_PROFILE),
          ["admin"], [])
  }

  /** Where one person is all there is and the roster agrees, a sync changes nothing and makes the one entry it must. */
  lemma AloneAndFixed(p: Profile, rs: RoleStore, ro: Roster, u: Id, r: Entry)
    requires p.userId == Some(u) && p.bsaId != "" && Final(ro, p) == p && Listed(ro, p)
    requires ro.members.Keys == {p.bsaId} && ro.pick.None?
    requires Reconciled(RoleNames(rs, u), Targets(ro.members[p.bsaId].positions)) == RoleNames(rs, u)
    requires Touched(rs, ro, p) && EntryFor(rs, ro, p, r)
    ensures PeopleOk(map[p.id := p]) && Synced(map[p.id := p], rs, ro, map[p.id := p], rs, [r])
  {
    var ps := map[p.id := p];
    AlonePeople(p, ro);
    AloneReport(p, rs, ro, r);
    hide RoleNames, RolesFor, ReportOk, PeopleOk, PickOk, NewDistinct, HasBsa, Touched, EntryFor;
    forall v ensures RoleNames(rs, v) == RolesFor(ps, rs, ro, ro.members.Keys, v) {
      AloneRoles(p, rs, ro, u, v);
    }
  }

  lemma AlonePeople(p: Profile, ro: Roster)
    requires p.bsaId != "" && ro.members.Keys == {p.bsaId} && ro.pick.None?
    ensures var ps := map[p.id := p];
            PeopleOk(ps) && PickOk(ps, ro) && NewDistinct(ps, ps) && forall b | b in ro.members :: HasBsa(ps, b)
  {
    var ps := map[p.id := p];
    assert ps[p.id].bsaId == p.bsaId;
  }

  lemma AloneReport(p: Profile, rs: RoleStore, ro: Roster, r: Entry)
    requires Touched(rs, ro, p) && EntryFor(rs, ro, p, r)
    ensures ReportOk(map[p.id := p], rs, ro, map[p.id := p], [r])
  {
    hide Touched, EntryFor;
    var ps := map[p.id := p];
    EntryNames(rs, ro, p, r);
    assert [r][0].profileId == p.id;
    assert Reported([r]) == {p.id};
    assert EntryOk(ps, rs, ro, ps, r);
  }

  lemma EntryNames(rs: RoleStore, ro: Roster, p: Profile, r: Entry)
    requires EntryFor(rs, ro, p, r)
    ensures r.profileId == p.id
  {
  }

  lemma AloneRoles(p: Profile, rs: RoleStore, ro: Roster, u: Id, v: Id)
    requires p.userId == Some(u) && Listed(ro, p)
    requires Reconciled(RoleNames(rs, u), Targets(ro.members[p.bsaId].positions)) == RoleNames(rs, u)
    ensures RoleNames(rs, v) == RolesFor(map[p.id := p], rs, ro, ro.members.Keys, v)
  {
    OwnerOwns(map[p.id := p], v);
  }

  lemma AdminFacts()
    ensures RoleNames(ADMIN_ROLES, 5) == {"admin"} == Targets("admin") && RoleNames(NO_ROLES, 5) == {}
    ensures AdminRoster().members == map["7" := ADMIN_MEMBER] && AdminRoster().adults == {"7"}
    ensures AdminRoster().pick.None?
    ensures Names(["admin"]) == {"admin"} && Names([]) == {}
  {
    OneName("admin");
    AdminRole(ADMIN_ROLES);
    OneAdult(ADMIN_MEMBER);
  }

  lemma AdminReported()
    ensures var ro := AdminRoster();
            && Listed(ro, ADMIN_PROFILE) && Final(ro, ADMIN_PROFILE) == ADMIN_PROFILE
            && Touched(ADMIN_ROLES, ro, ADMIN_PROFILE) && EntryFor(ADMIN_ROLES, ro, ADMIN_PROFILE, AdminEntry())
  {
    hide RoleNames, Targets, Names, RosterOf;
    AdminFacts();
    var ro := AdminRoster();
    assert Final(ro, ADMIN_PROFILE) == ADMIN_PROFILE;
    assert AddedFor(ADMIN_ROLES, ro, ADMIN_PROFILE) == {"admin"} && RemovedFor(ADMIN_ROLES, ro, ADMIN_PROFILE) == {};
  }

  /** A person whose position and role are both "admin". The sync changes nothing and reports the role as added, again
      and again; reverting that report takes the role away. */
  lemma AdminIsLost()
    ensures var ps, r := map[1 := ADMIN_PROFILE], AdminEntry();
            && PeopleOk(ps) && WellFormed(ADMIN_ROLES) && WellFormed(NO_ROLES)
            && Synced(ps, ADMIN_ROLES, AdminRoster(), ps, ADMIN_ROLES, [r])
            && RevertStep(ps, ADMIN_ROLES, 1, r.before.value, Names(r.rolesAdded), Names(r.rolesRemoved), ps, NO_ROLES)
    ensures RoleNames(ADMIN_ROLES, 5) == {"admin"} && RoleNames(NO_ROLES, 5) == {}
  {
    AdminFacts();
    AdminReported();
    AloneAndFixed(ADMIN_PROFILE, ADMIN_ROLES, AdminRoster(), 5, AdminEntry());
    AdminReverted();
  }

  lemma AdminReverted()
    ensures var ps, r := map[1 := ADMIN_PROFILE], AdminEntry();
            RevertStep(ps, ADMIN_ROLES, 1, r.before.value, Names(r.rolesAdded), Names(r.rolesRemoved), ps, NO_ROLES)
  {
    AdminFacts();
    var ps := map[1 := ADMIN_PROFILE];
    assert Restore(ADMIN_PROFILE, SnapshotOf(ADMIN_PROFILE)) == ADMIN_PROFILE;
    assert ps == ps[1 := ADMIN_PROFILE];
    forall u
      ensures RoleNames(NO_ROLES, u) ==
                if u == 5 then Reverted(RoleNames(ADMIN_ROLES, u), {"admin"}, {}) else RoleNames(ADMIN_ROLES, u)
    {
    }
  }
}
