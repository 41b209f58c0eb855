/** What a sync makes of one person, field by field and in terms of the two rosters, and what its report says. */
module SyncMeaning {
  import opened Common
  import opened Calendar
  import opened Profiles
  import opened Positions
  import opened RoleSpec
  import opened SyncSpec
  import opened SyncLaws
  import opened SyncReport

  // ----- One listed person -----

  /** The profile is the one that the sync files the member under: it has the member's ID, and where that is empty it is
      the one the lookup found, or new. */
  ghost predicate FiledUnder(ps: People, ps': People, pick: Option<Id>, m: Member, id: Id) {
    id in ps' && ps'[id].bsaId == m.memberId && (m.memberId == "" && id in ps ==> pick == Some(id))
  }

  lemma ChosenIsListed(adults: seq<Member>, youths: seq<Member>, pick: Option<Id>, m: Member)
    requires Chosen(adults, youths, m)
    ensures var ro := RosterOf(adults, youths, pick);
            m.memberId in ro.members && ro.members[m.memberId] == m && (m.memberId in ro.adults <==> m in adults)
  {
    MergeMeaning(adults, youths, m);
  }

  lemma FiledProfile(ps: People, rs: RoleStore, ro: Roster, ps': People, rs': RoleStore, report: seq<Entry>, m: Member,
                     id: Id)
    requires PeopleOk(ps) && Synced(ps, rs, ro, ps', rs', report) && FiledUnder(ps, ps', ro.pick, m, id)
    requires m.memberId in ro.members && ro.members[m.memberId] == m
    ensures ps'[id] == if id in ps then Overlay(ps[id], m, m.memberId in ro.adults)
                       else NewProfile(id, m, m.memberId in ro.adults)
  {
    if id in ps {
      FinalIsFixed(ro, ps[id]);
      assert Listed(ro, ps[id]);
    } else {
      assert CreatedOk(ps, ro, id, ps'[id]);
    }
  }

  /** The profile of a listed member has the member's names, gender and positions, is active, and is an adult's if and
      only if the member counts as an adult. Email, phone and birth date are the member's if it has them, else they
      stay, or stay blank in a new profile. Its identifier, ID and user stay; a new profile has no user. */
  lemma MemberFields(ps: People, rs: RoleStore, adults: seq<Member>, youths: seq<Member>, pick: Option<Id>, ps': People,
                     rs': RoleStore, report: seq<Entry>, m: Member, id: Id)
    requires PeopleOk(ps) && Synced(ps, rs, RosterOf(adults, youths, pick), ps', rs', report)
    requires Chosen(adults, youths, m) && FiledUnder(ps, ps', pick, m, id)
    ensures var p := ps'[id];
            && p.id == id && p.bsaId == m.memberId && p.status == Active
            && p.firstName == m.firstName && p.lastName == m.lastName && p.nickname == m.nickname
            && p.gender == m.gender && p.positions == m.positions
            && p.memberType == (if m in adults then Adult else Youth)
            && p.email == (if m.email != "" then m.email else if id in ps then ps[id].email else "")
            && p.phone == (if m.phone != "" then m.phone else if id in ps then ps[id].phone else "")
            && p.birthdate == (if m.birth.Some? then m.birth.value else if id in ps then ps[id].birthdate
                               else Instant(Date(1, 1, 1), 0))
            && p.userId == if id in ps then ps[id].userId else None
  {
    ChosenIsListed(adults, youths, pick, m);
    FiledProfile(ps, rs, RosterOf(adults, youths, pick), ps', rs', report, m, id);
  }

  /** Somebody with an ID who is not listed loses nothing but the active status. */
  lemma LeaverFields(ps: People, rs: RoleStore, adults: seq<Member>, youths: seq<Member>, pick: Option<Id>, ps': People,
                     rs': RoleStore, report: seq<Entry>, id: Id)
    requires PeopleOk(ps) && Synced(ps, rs, RosterOf(adults, youths, pick), ps', rs', report)
    requires id in ps && ps[id].bsaId != "" && !Lists(adults + youths, ps[id].bsaId)
    ensures id in ps'
    ensures ps'[id] == ps[id].(status := if ps[id].status == Active then Inactive else ps[id].status)
  {
    RosterLists(adults, youths, pick, ps[id].bsaId);
  }

  // ----- Roles -----

  /** After a sync the user of a listed member holds the roles its positions name, and of those held before exactly the
      parent, admin and Scouts BSA roles. Everybody else's roles are as before. */
  lemma MemberRoles(ps: People, rs: RoleStore, adults: seq<Member>, youths: seq<Member>, pick: Option<Id>, ps': People,
                    rs': RoleStore, report: seq<Entry>, m: Member, id: Id, u: Id, role: string)
    requires PeopleOk(ps) && Synced(ps, rs, RosterOf(adults, youths, pick), ps', rs', report)
    requires Chosen(adults, youths, m) && FiledUnder(ps, ps', pick, m, id) && ps'[id].userId == Some(u)
    ensures role in RoleNames(rs', u) <==>
              role in Targets(m.positions) || (role in RoleNames(rs, u) && role in {"parent", "admin", "Scouts BSA"})
  {
    var ro := RosterOf(adults, youths, pick);
    ChosenIsListed(adults, youths, pick, m);
    RegisteredBefore(ps, rs, ro, ps', rs', report, id);
    RolesAfterSync(ps, rs, ro, ps', rs', report, id, u);
    ReconciledMeaning(RoleNames(rs, u), Targets(m.positions), role);
  }

  lemma OtherRoles(ps: People, rs: RoleStore, adults: seq<Member>, youths: seq<Member>, pick: Option<Id>, ps': People,
                   rs': RoleStore, report: seq<Entry>, u: Id)
    requires PeopleOk(ps) && Synced(ps, rs, RosterOf(adults, youths, pick), ps', rs', report)
    requires forall id | id in ps && ps[id].userId == Some(u) ::
               !Lists(adults + youths, ps[id].bsaId) || (ps[id].bsaId == "" && pick != Some(id))
    ensures RoleNames(rs', u) == RoleNames(rs, u)
  {
    OwnerOwns(ps, u);
    if OwnerOf(ps, u).Some? {
      RosterLists(adults, youths, pick, ps[OwnerOf(ps, u).value].bsaId);
    }
  }

  // ----- The report -----

  /** All that a snapshot shows of a profile. */
  ghost predicate Shows(s: Snapshot, p: Profile) {
    && s.bsaId == p.bsaId && s.firstName == p.firstName && s.lastName == p.lastName && s.nickname == p.nickname
    && s.gender == p.gender && s.email == p.email && s.phone == p.phone && s.birthdate == p.birthdate
    && s.memberType == p.memberType && s.status == p.status && s.positions == p.positions && s.userId == p.userId
  }

  /** Every entry shows its profile as it is after the sync and, if there was one, as it was before. Its status says
      what became of the profile: created, changed, switched from active to inactive, or not changed at all. */
  lemma ReportMeaning(ps: People, rs: RoleStore, ro: Roster, ps': People, rs': RoleStore, report: seq<Entry>, r: Entry)
    requires PeopleOk(ps) && Synced(ps, rs, ro, ps', rs', report) && r in report
    ensures r.profileId in ps'
    ensures var p := ps'[r.profileId];
            && r.memberId == p.bsaId && Shows(r.after, p)
            && r.name == (if p.nickname != "" then p.nickname + " (" + p.firstName + ") " + p.lastName
                          else p.firstName + " " + p.lastName)
    ensures r.before.Some? <==> r.profileId in ps
    ensures r.before.Some? ==> Shows(r.before.value, ps[r.profileId])
    ensures r.status == Created <==> r.profileId !in ps
    ensures r.profileId in ps ==>
              var before, after := ps[r.profileId], ps'[r.profileId];
              && (r.status == RolesOnly <==> after == before)
              && (r.status == Updated <==> after != before && after.status == Active)
              && (r.status == Deactivated <==> before.status == Active && after.status == Inactive)
  {
    EntryIsOk(ps, rs, ro, ps', rs', report, r);
  }

  /** The roles reported for a registered person: added are the named positions but for the unprotected roles held
      before, removed the unprotected roles held before that no position names. */
  lemma ReportedRoles(ps: People, rs: RoleStore, ro: Roster, ps': People, rs': RoleStore, report: seq<Entry>, r: Entry,
                      u: Id, role: string)
    requires PeopleOk(ps) && Synced(ps, rs, ro, ps', rs', report) && r in report
    requires r.profileId in ps && ps[r.profileId].userId == Some(u) && Listed(ro, ps[r.profileId])
    ensures var held, named := RoleNames(rs, u), Targets(ro.members[ps[r.profileId].bsaId].positions);
            var unprotected := role !in {"parent", "admin", "Scouts BSA"};
            && (role in r.rolesAdded <==> role in named && !(role in held && unprotected))
            && (role in r.rolesRemoved <==> role in held && unprotected && role !in named)
  {
    EntryIsOk(ps, rs, ro, ps', rs', report, r);
    assert role in r.rolesAdded <==> role in Names(r.rolesAdded);
    assert role in r.rolesRemoved <==> role in Names(r.rolesRemoved);
    ReconciledMeaning(RoleNames(rs, u), Targets(ro.members[ps[r.profileId].bsaId].positions), role);
  }

  /** Who is reported: the new ones, the changed ones, and those whose user was given or lost a role. */
  lemma WhoIsReported(ps: People, rs: RoleStore, ro: Roster, ps': People, rs': RoleStore, report: seq<Entry>, id: Id)
    requires PeopleOk(ps) && Synced(ps, rs, ro, ps', rs', report) && id in ps'
    ensures (exists r :: r in report && r.profileId == id) <==>
              id !in ps || ps'[id] != ps[id] || AddedFor(rs, ro, ps[id]) != {} || RemovedFor(rs, ro, ps[id]) != {}
  {
    if r :| r in report && r.profileId == id {
      var i :| 0 <= i < |report| && report[i] == r;
      assert report[i].profileId in Reported(report);
    }
    if id in Reported(report) {
      var i :| 0 <= i < |report| && report[i].profileId == id;
      assert report[i] in report;
    }
  }

  // ----- Order and counters -----

  /** The first character that differs decides, and a proper prefix comes first. */
  lemma {:induction false} StrLessMeaning(front: string, c: char, a: string, d: char, b: string)
    ensures StrLess(front, front + [c] + a)
    ensures c < d ==> StrLess(front + [c] + a, front + [d] + b)
  {
    var s, t := front + [c] + a, front + [d] + b;
    if front != "" {
      StrLessMeaning(front[1..], c, a, d, b);
      assert s[1..] == front[1..] + [c] + a && t[1..] == front[1..] + [d] + b;
    }
  }

  /** A sorted report goes by name, and by member ID where the names are the same. */
  lemma SortedByName(report: seq<Entry>, i: nat, j: nat)
    requires ReportSorted(report) && i < j < |report|
    ensures report[i].name == report[j].name || StrLess(report[i].name, report[j].name)
    ensures report[i].name == report[j].name ==> StrLess(report[i].memberId, report[j].memberId)
  {
    StrLessIrreflexive(report[i].name);
    assert EntryLess(report[i], report[j]);
  }

  /** Every entry counts once, by its status, and with the roles it lists. */
  lemma EntryCounts(front: seq<Entry>, r: Entry)
    ensures var before, after := Tally(front), Tally(front + [r]);
            && after.created == before.created + (if r.status == Created then 1 else 0)
            && after.updated == before.updated + (if r.status == Updated || r.status == RolesOnly then 1 else 0)
            && after.deactivated == before.deactivated + (if r.status == Deactivated then 1 else 0)
            && after.rolesAdded == before.rolesAdded + |r.rolesAdded|
            && after.rolesRemoved == before.rolesRemoved + |r.rolesRemoved|
  {
    assert (front + [r])[..|front|] == front;
  }

  // ----- What a revert writes -----

  /** A revert gives a profile every field of the snapshot but the ID and the user, which stay. */
  lemma RestoreFields(p: Profile, was: Profile)
    ensures Restore(p, SnapshotOf(was)) == was.(id := p.id, bsaId := p.bsaId, userId := p.userId)
  {
  }
}
