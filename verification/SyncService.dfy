/** The roster sync and its revert (internal/domain/sync/service.go). */
module SyncServices {
  import opened Common
  import opened Profiles
  import opened Positions
  import opened RoleSpec
  import opened SyncSpec
  import opened SyncLaws
  import opened SyncProgress
  import opened SyncReport
  import opened RoleRepositories
  import opened ProfileRepositories

  /** The list holds every roster member once, in some order. */
  ghost predicate Enumerates(list: seq<Member>, members: map<string, Member>) {
    && (forall i | 0 <= i < |list| :: list[i].memberId in members && members[list[i].memberId] == list[i])
    && (forall i, j | 0 <= i < j < |list| :: list[i].memberId != list[j].memberId)
    && (forall b | b in members :: members[b] in list)
  }

  /** Merges the two rosters through a map and lists the map in an arbitrary order. */
  method Deduplicate(adults: seq<Member>, youths: seq<Member>) returns (list: seq<Member>)
    ensures Enumerates(list, MergeYouths(adults, youths))
    ensures forall m :: m in list <==> Chosen(adults, youths, m)
  {
    var seen: map<string, Member> := map[];
    for i := 0 to |adults|
      invariant seen == MergeAdults(adults[..i])
    {
      assert adults[..i + 1][..i] == adults[..i];
      seen := seen[adults[i].memberId := adults[i]];
    }
    assert adults[..|adults|] == adults;
    for i := 0 to |youths|
      invariant seen == MergeYouths(adults, youths[..i])
    {
      assert youths[..i + 1][..i] == youths[..i];
      if youths[i].memberId !in seen {
        seen := seen[youths[i].memberId := youths[i]];
      }
    }
    assert youths[..|youths|] == youths;
    forall b | b in seen ensures seen[b].memberId == b {
      MergeKeyed(adults, youths, b);
    }
    list := ListAll(seen);
    ListedAreChosen(adults, youths, list);
  }

  lemma ListedAreChosen(adults: seq<Member>, youths: seq<Member>, list: seq<Member>)
    requires Enumerates(list, MergeYouths(adults, youths))
    ensures forall m :: m in list <==> Chosen(adults, youths, m)
  {
    hide MergeYouths, Chosen;
    forall m ensures m in list <==> Chosen(adults, youths, m) {
      MergeMeaning(adults, youths, m);
      if m in list {
        var i :| 0 <= i < |list| && list[i] == m;
      }
    }
  }

  method ListAll(seen: map<string, Member>) returns (list: seq<Member>)
    requires forall b | b in seen :: seen[b].memberId == b
    ensures Enumerates(list, seen)
  {
    list := [];
    var todo := seen.Keys;
    while todo != {}
      invariant todo <= seen.Keys
      invariant forall i | 0 <= i < |list| ::
                  list[i].memberId in seen && list[i].memberId !in todo && seen[list[i].memberId] == list[i]
      invariant forall i, j | 0 <= i < j < |list| :: list[i].memberId != list[j].memberId
      invariant forall b | b in seen && b !in todo :: seen[b] in list
    {
      var b := NextKey(todo);
      ghost var before := list;
      list := list + [seen[b]];
      assert list[|before|] == seen[b];
      assert forall m | m in before :: m in list;
      todo := todo - {b};
    }
  }

  method IsAdult(b: string, adults: seq<Member>) returns (adult: bool)
    ensures adult <==> b in MemberIds(adults)
  {
    for i := 0 to |adults|
      invariant forall k | 0 <= k < i :: adults[k].memberId != b
    {
      if adults[i].memberId == b {
        assert adults[i] in adults;
        return true;
      }
    }
    return false;
  }

  /** Fills in what the roster may leave out. */
  method ApplyRosterData(m: Member, p: Profile) returns (filled: Profile)
    ensures filled == p.(email := if m.email != "" then m.email else p.email,
                         phone := if m.phone != "" then m.phone else p.phone,
                         birthdate := if m.birth.Some? then m.birth.value else p.birthdate)
  {
    filled := p;
    if m.email != "" {
      filled := filled.(email := m.email);
    }
    if m.phone != "" {
      filled := filled.(phone := m.phone);
    }
    if m.birth.Some? {
      filled := filled.(birthdate := m.birth.value);
    }
  }

  /** Copies the names, the gender and the positions where they differ; the flag tells whether anything did. */
  method OverlayNames(existing: Profile, m: Member) returns (p: Profile, updated: bool)
    ensures p == existing.(firstName := m.firstName, lastName := m.lastName, nickname := m.nickname, gender := m.gender,
                           positions := m.positions)
    ensures updated <==> p != existing
  {
    p, updated := existing, false;
    if p.firstName != m.firstName {
      p, updated := p.(firstName := m.firstName), true;
    }
    if p.lastName != m.lastName {
      p, updated := p.(lastName := m.lastName), true;
    }
    if p.nickname != m.nickname {
      p, updated := p.(nickname := m.nickname), true;
    }
    if p.gender != m.gender {
      p, updated := p.(gender := m.gender), true;
    }
    if p.positions != m.positions {
      p, updated := p.(positions := m.positions), true;
    }
  }

  /** Copies all roster fields that differ; email, phone and birth date only when the roster has them. */
  method OverlayFields(existing: Profile, m: Member, adult: bool) returns (p: Profile, updated: bool)
    ensures p == Overlay(existing, m, adult) && (updated <==> p != existing)
  {
    p, updated := OverlayNames(existing, m);
    var memberType := if adult then Adult else Youth;
    if p.memberType != memberType {
      p, updated := p.(memberType := memberType), true;
    }
    if p.status != Active {
      p, updated := p.(status := Active), true;
    }
    if m.email != "" && m.email != p.email {
      p, updated := p.(email := m.email), true;
    }
    if m.phone != "" && m.phone != p.phone {
      p, updated := p.(phone := m.phone), true;
    }
    if m.birth.Some? && m.birth.value != p.birthdate {
      p, updated := p.(birthdate := m.birth.value), true;
    }
  }

  datatype Result = Result(profiles: seq<Entry>, counters: Counters)

  class SyncService {
    const profiles: ProfileRepository
    const rbac: RBACRepository

    constructor (profiles: ProfileRepository, rbac: RBACRepository)
      ensures this.profiles == profiles && this.rbac == rbac
    {
      this.profiles, this.rbac := profiles, rbac;
    }

    ghost function People(): People
      reads profiles
    {
      profiles.profiles
    }

    ghost function Roles(): RoleStore
      reads rbac
    {
      rbac.State()
    }

    method CreateMember(m: Member, adult: bool) returns (entry: Entry)
      requires !HasBsa(People(), m.memberId)
      modifies profiles
      ensures entry.profileId !in old(People()) && CreatedEntry(NewProfile(entry.profileId, m, adult), entry)
      ensures People() == old(People())[entry.profileId := NewProfile(entry.profileId, m, adult)]
    {
      var blank := Profile(NO_ID, m.memberId, m.firstName, m.lastName, m.nickname, m.gender, "", "", ZERO_TIME,
                           if adult then Adult else Youth, Active, None, m.positions);
      var filled := ApplyRosterData(m, blank);
      var created := profiles.Create(filled);
      var p := created.value;
      entry := Entry(p.id, m.memberId, DisplayName(p), Created, None, SnapshotOf(p), [], []);
    }

    method ReconcileUser(user: Option<Id>, positions: string)
      returns (addedNames: seq<string>, removedNames: seq<string>)
      requires WellFormed(Roles())
      modifies rbac
      ensures WellFormed(Roles()) && RolesMoved(old(Roles()), user, Targets(positions), Roles())
      ensures Distinct(addedNames) && Distinct(removedNames)
      ensures Names(addedNames) ==
              if user.Some? then Added(RoleNames(old(Roles()), user.value), Targets(positions)) else {}
      ensures Names(removedNames) ==
              if user.Some? then Removed(RoleNames(old(Roles()), user.value), Targets(positions)) else {}
    {
      if user.None? {
        return [], [];
      }
      addedNames, removedNames := rbac.ReconcileRoles(user.value, positions);
    }

    /** Brings a profile and its user's roles in line with the roster; silent when nothing changes. */
    method UpdateMember(existing: Profile, m: Member, ghost ro: Roster, adult: bool) returns (entry: Option<Entry>)
      requires WellFormed(Roles()) && existing.id in People() && People()[existing.id] == existing
      requires Listed(ro, existing) && ro.members[existing.bsaId] == m && m.memberId == existing.bsaId
      requires adult <==> existing.bsaId in ro.adults
      modifies profiles, rbac
      ensures WellFormed(Roles())
      ensures People() == old(People())[existing.id := OverlayIn(ro, existing)]
      ensures RolesMoved(old(Roles()), existing.userId, Targets(m.positions), Roles())
      ensures entry.Some? <==> Touched(old(Roles()), ro, existing)
      ensures entry.Some? ==> EntryFor(old(Roles()), ro, existing, entry.value)
    {
      var p, updated := OverlayFields(existing, m, adult);
      var addedNames, removedNames := ReconcileUser(p.userId, p.positions);
      NoNames(addedNames);
      NoNames(removedNames);
      assert Names(addedNames) == AddedFor(old(Roles()), ro, existing);
      assert Names(removedNames) == RemovedFor(old(Roles()), ro, existing);
      assert p == Final(ro, existing);
      if !updated && |addedNames| == 0 && |removedNames| == 0 {
        return None;
      }
      var status := Updated;
      if updated {
        var _ := profiles.Update(p);
      } else {
        status := RolesOnly;
      }
      entry := Some(Entry(p.id, m.memberId, DisplayName(p), status, Some(SnapshotOf(existing)), SnapshotOf(p),
                          addedNames, removedNames));
    }

    lemma NoNames(list: seq<string>)
      ensures |list| == 0 <==> Names(list) == {}
    {
      if list != [] {
        assert list[0] in Names(list);
      }
    }

    /** The lookup of the empty ID is settled once that member has been processed, and open before. */
    static ghost predicate PickSoFar(ps0: People, ro: Roster, done: set<string>) {
      if "" in done then PickOk(ps0, ro) else ro.pick.None?
    }

    /** One turn of the loop over the members; the turn of a member without an ID settles which profile it takes. */
    method SyncMember(m: Member, adult: bool, report: seq<Entry>, ghost ps0: People, ghost rs0: RoleStore,
                      ghost ro: Roster, ghost done: set<string>)
      returns (longer: seq<Entry>, ghost ro': Roster)
      requires WellFormed(Roles()) && PeopleOk(ps0) && RosterOk(ro) && PickSoFar(ps0, ro, done)
      requires m.memberId in ro.members && ro.members[m.memberId] == m && m.memberId !in done
      requires adult <==> m.memberId in ro.adults
      requires SoFar(ps0, rs0, ro, done, Processed(ps0, ro, done), People(), Roles(), report)
      modifies profiles, rbac
      ensures WellFormed(Roles())
      ensures ro' == ro.(pick := ro'.pick) && PickSoFar(ps0, ro', done + {m.memberId})
      ensures SoFar(ps0, rs0, ro', done + {m.memberId}, Processed(ps0, ro', done + {m.memberId}), People(), Roles(),
                    longer)
    {
      StillOk(ps0, rs0, ro, done, People(), Roles(), report);
      hide SoFar, PickOk, HasBsa, PeopleOk, RosterOk, Processed;
      var existing := profiles.GetByBSAID(m.memberId);
      ro' := ro;
      if existing.None? {
        NoneFound(ps0, rs0, ro, done, People(), Roles(), report, m.memberId);
        var entry := CreateMember(m, adult);
        longer := report + [entry];
        CreateStep(ps0, rs0, ro, done, old(People()), Roles(), report, m.memberId, entry.profileId, entry);
      } else {
        var found := existing.value;
        if m.memberId == "" {
          ro' := ro.(pick := Some(found.id));
          PickLate(ps0, rs0, ro, done, People(), Roles(), report, ro');
          PickFound(ps0, rs0, ro', done, People(), Roles(), report, found.id);
        }
        var entry := UpdateMember(found, m, ro', adult);
        longer := if entry.Some? then report + [entry.value] else report;
        UpdateStep(ps0, rs0, ro', done, old(People()), old(Roles()), report, found.id, Roles(), entry);
      }
    }

    lemma StillOk(ps0: People, rs0: RoleStore, ro: Roster, done: set<string>, ps: People, rs: RoleStore,
                  report: seq<Entry>)
      requires SoFar(ps0, rs0, ro, done, Processed(ps0, ro, done), ps, rs, report)
      ensures Keyed(ps)
    {
    }

    lemma NoneFound(ps0: People, rs0: RoleStore, ro: Roster, done: set<string>, ps: People, rs: RoleStore,
                    report: seq<Entry>, b: string)
      requires PickSoFar(ps0, ro, done) && b !in done && !HasBsa(ps, b)
      requires SoFar(ps0, rs0, ro, done, Processed(ps0, ro, done), ps, rs, report)
      ensures PickSoFar(ps0, ro, done + {b})
    {
      NoneBefore(ps0, ro, done, Processed(ps0, ro, done), ps, b);
    }

    lemma PickFound(ps0: People, rs0: RoleStore, ro: Roster, done: set<string>, ps: People, rs: RoleStore,
                    report: seq<Entry>, id: Id)
      requires PeopleOk(ps0) && "" in ro.members && "" !in done && ro.pick == Some(id)
      requires SoFar(ps0, rs0, ro, done, Processed(ps0, ro, done), ps, rs, report)
      requires id in ps && ps[id].bsaId == ""
      ensures PickOk(ps0, ro)
    {
      Unprocessed(ps0, ro, done, Processed(ps0, ro, done), ps, id);
      assert ps0[id].bsaId == "";
    }

    /** One turn of the loop over the active profiles. */
    method VisitActive(p: Profile, activeIds: set<string>, report: seq<Entry>, ghost ps0: People, ghost rs0: RoleStore,
                       ghost ro: Roster, ghost settled: set<Id>)
      returns (longer: seq<Entry>)
      requires PeopleOk(ps0) && RosterOk(ro) && activeIds == ro.members.Keys
      requires SoFar(ps0, rs0, ro, activeIds, settled, People(), Roles(), report)
      requires p.bsaId !in ro.members ==> p.id in ps0 && ps0[p.id] == p && p.status == Active && p.id !in settled
      modifies profiles
      ensures Roles() == old(Roles())
      ensures SoFar(ps0, rs0, ro, activeIds, SettledWith(ro, settled, p), People(), old(Roles()), longer)
    {
      longer := report;
      if p.bsaId !in activeIds {
        if p.bsaId != "" {
          var gone := p.(status := Inactive);
          var _ := profiles.Update(gone);
          longer := report + [Entry(p.id, p.bsaId, DisplayName(gone), Deactivated, Some(SnapshotOf(p)),
                                    SnapshotOf(gone), [], [])];
        } else {
          assert People() == old(People())[p.id := p];
        }
        LeaverStep(ps0, rs0, ro, activeIds, settled, old(People()), Roles(), report, p.id, longer);
      }
    }

    ghost function SettledWith(ro: Roster, settled: set<Id>, p: Profile): set<Id> {
      if p.bsaId in ro.members then settled else settled + {p.id}
    }

    /** The loop over the active profiles: those with an ID that is not on the roster are deactivated. */
    method DeactivateLeavers(activeIds: set<string>, report: seq<Entry>, ghost ps0: People, ghost rs0: RoleStore,
                             ghost ro: Roster)
      returns (longer: seq<Entry>)
      requires PeopleOk(ps0) && RosterOk(ro) && activeIds == ro.members.Keys && PickOk(ps0, ro)
      requires SoFar(ps0, rs0, ro, activeIds, Processed(ps0, ro, activeIds), People(), Roles(), report)
      modifies profiles
      ensures Synced(ps0, rs0, ro, People(), Roles(), longer)
    {
      var active := profiles.ListByStatus(Active);
      LeaversListed(ps0, ro, People(), active);
      ghost var settled;
      longer, settled := DeactivateAll(active, activeIds, report, ps0, rs0, ro);
      AtTheEnd(ps0, rs0, ro, settled, People(), Roles(), longer);
    }

    ghost predicate NoRepeats(active: seq<Profile>) {
      forall i, j | 0 <= i < j < |active| :: active[i].id != active[j].id
    }

    /** The profiles from a place on that are not on the roster are not settled yet. */
    ghost predicate Pending(active: seq<Profile>, from: nat, ps0: People, ro: Roster, settled: set<Id>) {
      forall i | from <= i < |active| && active[i].bsaId !in ro.members ::
        active[i].id in ps0 && ps0[active[i].id] == active[i] && active[i].status == Active && active[i].id !in settled
    }

    lemma PendingNext(active: seq<Profile>, i: nat, ps0: People, ro: Roster, settled: set<Id>)
      requires i < |active| && NoRepeats(active) && Pending(active, i, ps0, ro, settled)
      ensures Pending(active, i + 1, ps0, ro, SettledWith(ro, settled, active[i]))
    {
    }

    method DeactivateAll(active: seq<Profile>, activeIds: set<string>, report: seq<Entry>, ghost ps0: People,
                         ghost rs0: RoleStore, ghost ro: Roster)
      returns (longer: seq<Entry>, ghost settled: set<Id>)
      requires PeopleOk(ps0) && RosterOk(ro) && activeIds == ro.members.Keys
      requires NoRepeats(active) && Pending(active, 0, ps0, ro, Processed(ps0, ro, activeIds))
      requires SoFar(ps0, rs0, ro, activeIds, Processed(ps0, ro, activeIds), People(), Roles(), report)
      modifies profiles
      ensures SoFar(ps0, rs0, ro, activeIds, settled, People(), Roles(), longer)
      ensures forall i | 0 <= i < |active| && active[i].bsaId !in ro.members :: active[i].id in settled
    {
      hide SoFar;
      longer := report;
      settled := Processed(ps0, ro, activeIds);
      ghost var rs := Roles();
      for i := 0 to |active|
        invariant forall k | 0 <= k < i && active[k].bsaId !in ro.members :: active[k].id in settled
        invariant Pending(active, i, ps0, ro, settled)
        invariant Roles() == rs && SoFar(ps0, rs0, ro, activeIds, settled, People(), rs, longer)
      {
        PendingNext(active, i, ps0, ro, settled);
        longer := VisitActive(active[i], activeIds, longer, ps0, rs0, ro, settled);
        settled := SettledWith(ro, settled, active[i]);
      }
    }

    /** Every profile that is active and not on the roster is on the list, as it was before the sync. */
    lemma LeaversListed(ps0: People, ro: Roster, ps: People, active: seq<Profile>)
      requires RosterOk(ro) && PeopleSoFar(ps0, ro, ro.members.Keys, Processed(ps0, ro, ro.members.Keys), ps)
      requires forall i | 0 <= i < |active| ::
                 active[i].id in ps && ps[active[i].id] == active[i] && active[i].status == Active
      requires forall id | id in ps && ps[id].status == Active :: ps[id] in active
      ensures Pending(active, 0, ps0, ro, Processed(ps0, ro, ro.members.Keys))
      ensures forall id | id in ps0 && ps0[id].status == Active && ps0[id].bsaId !in ro.members :: ps0[id] in active
    {
    }

    /** The loop over the members. */
    method SyncMembers(members: seq<Member>, adults: seq<Member>, ghost roster: Roster)
      returns (report: seq<Entry>, activeIds: set<string>, ghost ro: Roster)
      requires PeopleOk(People()) && WellFormed(Roles()) && RosterOk(roster) && Enumerates(members, roster.members)
      requires roster.adults == MemberIds(adults) && roster.pick.None?
      modifies profiles, rbac
      ensures WellFormed(Roles()) && activeIds == roster.members.Keys
      ensures ro == roster.(pick := ro.pick) && PickOk(old(People()), ro)
      ensures SoFar(old(People()), old(Roles()), ro, activeIds, Processed(old(People()), ro, activeIds), People(),
                    Roles(), report)
    {
      ghost var ps0, rs0 := People(), Roles();
      ro := roster;
      AtTheStart(ps0, rs0, ro);
      report, activeIds := [], {};
      assert Processed(ps0, ro, {}) == {};
      for i := 0 to |members|
        invariant activeIds == MemberIds(members[..i]) && ro == roster.(pick := ro.pick)
        invariant WellFormed(Roles()) && PickSoFar(ps0, ro, activeIds)
        invariant SoFar(ps0, rs0, ro, activeIds, Processed(ps0, ro, activeIds), People(), Roles(), report)
      {
        var adult := IsAdult(members[i].memberId, adults);
        ghost var done := activeIds;
        OneMoreMember(members, ro, i);
        activeIds := activeIds + {members[i].memberId};
        report, ro := SyncMember(members[i], adult, report, ps0, rs0, ro, done);
      }
      assert members[..|members|] == members;
      AllProcessed(members, ro);
    }

    /** One sync: whatever order the members come in, the outcome is the one the relation describes. The ghost result
        is the profile that the lookup of an empty ID found, if there was one. */
    method Sync(adults: seq<Member>, youths: seq<Member>) returns (result: Result, ghost pick: Option<Id>)
      requires PeopleOk(People()) && WellFormed(Roles())
      modifies profiles, rbac
      ensures WellFormed(Roles())
      ensures Synced(old(People()), old(Roles()), RosterOf(adults, youths, pick), People(), Roles(), result.profiles)
      ensures ReportSorted(result.profiles) && result.counters == Tally(result.profiles)
    {
      MergedRosterOk(adults, youths, None);
      var members := Deduplicate(adults, youths);
      var report, activeIds;
      ghost var ro;
      report, activeIds, ro := SyncMembers(members, adults, RosterOf(adults, youths, None));
      pick := ro.pick;
      report := DeactivateLeavers(activeIds, report, old(People()), old(Roles()), ro);
      result := Finish(report, old(People()), old(Roles()), ro);
    }

    /** Counts and sorts the report. */
    method Finish(report: seq<Entry>, ghost ps0: People, ghost rs0: RoleStore,
                  ghost ro: Roster) returns (result: Result)
      requires PeopleOk(ps0) && RosterOk(ro) && Synced(ps0, rs0, ro, People(), Roles(), report)
      ensures Synced(ps0, rs0, ro, People(), Roles(), result.profiles)
      ensures ReportSorted(result.profiles) && result.counters == Tally(result.profiles)
    {
      var counters := ComputeCounters(report);
      ReportKeysDistinct(ps0, rs0, ro, People(), Roles(), report);
      var sorted := SortEntries(report);
      SyncedAnyOrder(ps0, rs0, ro, People(), Roles(), report, sorted);
      result := Result(sorted, counters);
    }

    lemma OneMoreMember(members: seq<Member>, ro: Roster, i: nat)
      requires Enumerates(members, ro.members) && i < |members|
      ensures members[i].memberId !in MemberIds(members[..i])
      ensures MemberIds(members[..i + 1]) == MemberIds(members[..i]) + {members[i].memberId}
    {
    }

    lemma AllProcessed(members: seq<Member>, ro: Roster)
      requires Enumerates(members, ro.members) && RosterOk(ro)
      ensures MemberIds(members) == ro.members.Keys
    {
    }

    /** Writes a snapshot back and undoes the reported role changes. */
    method Revert(prior: Snapshot, rolesAdded: seq<string>, rolesRemoved: seq<string>) returns (ok: bool, ghost id: Id)
      requires PeopleOk(People()) && WellFormed(Roles())
      modifies profiles, rbac
      ensures WellFormed(Roles()) && PeopleOk(People())
      ensures ok <==> HasBsa(old(People()), prior.bsaId)
      ensures ok ==> RevertStep(old(People()), old(Roles()), id, prior, Names(rolesAdded), Names(rolesRemoved),
                                People(), Roles())
      ensures !ok ==> People() == old(People()) && Roles() == old(Roles())
    {
      var found := profiles.GetByBSAID(prior.bsaId);
      if found.None? {
        return false, 0;
      }
      id := found.value.id;
      var p := found.value.(firstName := prior.firstName);
      p := p.(lastName := prior.lastName);
      p := p.(nickname := prior.nickname);
      p := p.(gender := prior.gender);
      p := p.(email := prior.email);
      p := p.(phone := prior.phone);
      p := p.(birthdate := prior.birthdate);
      p := p.(memberType := prior.memberType);
      p := p.(status := prior.status);
      p := p.(positions := prior.positions);
      assert p == Restore(found.value, prior);
      ok := profiles.Update(p);
      PeopleOkAfterEdit(old(People()), p.id, p);
      if p.userId.Some? {
        rbac.RevertRoles(p.userId.value, rolesAdded, rolesRemoved);
      }
    }

    /** The route refuses a snapshot without an ID; for any other it is the one profile with the ID that is reverted. */
    method RevertRequest(prior: Snapshot, rolesAdded: seq<string>, rolesRemoved: seq<string>)
      returns (ok: bool, ghost id: Id)
      requires PeopleOk(People()) && WellFormed(Roles())
      modifies profiles, rbac
      ensures WellFormed(Roles()) && PeopleOk(People())
      ensures ok <==> prior.bsaId != "" && HasBsa(old(People()), prior.bsaId)
      ensures ok ==> RevertStep(old(People()), old(Roles()), id, prior, Names(rolesAdded), Names(rolesRemoved),
                                People(), Roles())
      ensures ok ==> forall x | x in old(People()) && old(People())[x].bsaId == prior.bsaId :: x == id
      ensures !ok ==> People() == old(People()) && Roles() == old(Roles())
    {
      if prior.bsaId == "" {
        return false, 0;
      }
      ok, id := Revert(prior, rolesAdded, rolesRemoved);
    }
  }
}
