/** What a roster sync must leave behind, whatever the order in which members are visited
    (internal/domain/sync/service.go). */
module SyncSpec {
  import opened Common
  import opened Calendar
  import opened Profiles
  import opened Positions
  import opened RoleSpec

  /** A roster member; `birth` is the outcome of parsing the birth date, None when absent or malformed. */
  datatype Member = Member(
    memberId: string,
    firstName: string,
    lastName: string,
    nickname: string,
    gender: string,
    email: string,
    phone: string,
    birth: Option<Instant>,
    positions: string)

  type People = map<Id, Profile>

  const ZERO_TIME := Instant(Date(1, 1, 1), 0)

  // ----- The merged roster -----

  /** The members by BSA ID, the BSA IDs listed among the adults, and the profile that is found when a member without
      an ID is looked up: any profile without an ID. */
  datatype Roster = Roster(members: map<string, Member>, adults: set<string>, pick: Option<Id>)

  /** Of several adults with one ID the last counts. */
  function MergeAdults(adults: seq<Member>): map<string, Member> {
    if adults == [] then map[]
    else
      var last := adults[|adults| - 1];
      MergeAdults(adults[..|adults| - 1])[last.memberId := last]
  }

  /** A youth counts only if the ID is new, so of several youths with one ID the first counts. */
  function MergeYouths(adults: seq<Member>, youths: seq<Member>): map<string, Member> {
    if youths == [] then MergeAdults(adults)
    else
      var rest := MergeYouths(adults, youths[..|youths| - 1]);
      var last := youths[|youths| - 1];
      if last.memberId in rest then rest else rest[last.memberId := last]
  }

  function MemberIds(list: seq<Member>): set<string> {
    set m | m in list :: m.memberId
  }

  function RosterOf(adults: seq<Member>, youths: seq<Member>, pick: Option<Id>): Roster {
    Roster(MergeYouths(adults, youths), MemberIds(adults), pick)
  }

  /** Members are filed under their own ID. */
  ghost predicate RosterOk(ro: Roster) {
    forall b | b in ro.members :: ro.members[b].memberId == b
  }

  /** The profile is the one that the sync finds for some member. */
  predicate Listed(ro: Roster, p: Profile) {
    p.bsaId in ro.members && (p.bsaId == "" ==> ro.pick == Some(p.id))
  }

  lemma {:induction false} MergeKeyed(adults: seq<Member>, youths: seq<Member>, b: string)
    requires b in MergeYouths(adults, youths)
    ensures MergeYouths(adults, youths)[b].memberId == b
    ensures exists m :: m in adults + youths && m.memberId == b
  {
    if youths != [] {
      var n := |youths| - 1;
      assert youths == youths[..n] + [youths[n]];
      if b in MergeYouths(adults, youths[..n]) {
        MergeKeyed(adults, youths[..n], b);
        var m :| m in adults + youths[..n] && m.memberId == b;
        assert m in adults + youths;
      } else {
        assert youths[n] in adults + youths;
      }
    } else {
      MergeAdultsKeyed(adults, b);
      var m :| m in adults && m.memberId == b;
      assert m in adults + youths;
    }
  }

  lemma {:induction false} MergeAdultsKeyed(adults: seq<Member>, b: string)
    requires b in MergeAdults(adults)
    ensures MergeAdults(adults)[b].memberId == b
    ensures exists m :: m in adults && m.memberId == b
  {
    var n := |adults| - 1;
    assert adults == adults[..n] + [adults[n]];
    if b != adults[n].memberId {
      MergeAdultsKeyed(adults[..n], b);
      var m :| m in adults[..n] && m.memberId == b;
      assert m in adults;
    } else {
      assert adults[n] in adults;
    }
  }

  lemma MergedRosterOk(adults: seq<Member>, youths: seq<Member>, pick: Option<Id>)
    ensures RosterOk(RosterOf(adults, youths, pick))
  {
    forall b | b in MergeYouths(adults, youths) ensures MergeYouths(adults, youths)[b].memberId == b {
      MergeKeyed(adults, youths, b);
    }
  }

  // ----- Whom the merge keeps -----

  /** The member is listed, and nobody after it has its ID. */
  ghost predicate LastWithId(list: seq<Member>, m: Member) {
    exists i | 0 <= i < |list| :: list[i] == m && forall k | i < k < |list| :: list[k].memberId != m.memberId
  }

  /** The member is listed, and nobody before it has its ID. */
  ghost predicate FirstWithId(list: seq<Member>, m: Member) {
    exists i | 0 <= i < |list| :: list[i] == m && forall k | 0 <= k < i :: list[k].memberId != m.memberId
  }

  /** Whose data count for an ID: the last adult with it, and the first youth with it when no adult has it. */
  ghost predicate Chosen(adults: seq<Member>, youths: seq<Member>, m: Member) {
    LastWithId(adults, m) || (FirstWithId(youths, m) && forall a | a in adults :: a.memberId != m.memberId)
  }

  lemma LastOfLonger(list: seq<Member>, m: Member)
    requires list != []
    ensures var n := |list| - 1;
            LastWithId(list, m) <==> m == list[n] || (LastWithId(list[..n], m) && m.memberId != list[n].memberId)
  {
    var n := |list| - 1;
    if i :| 0 <= i < n && list[..n][i] == m && forall k | i < k < n :: list[..n][k].memberId != m.memberId {
      assert list[i] == m && forall k | i < k < n :: list[k].memberId == list[..n][k].memberId;
    }
    if i :| 0 <= i < |list| && list[i] == m && forall k | i < k < |list| :: list[k].memberId != m.memberId {
      assert i < n ==> list[..n][i] == m;
    }
  }

  lemma FirstOfLonger(list: seq<Member>, m: Member)
    requires list != []
    ensures var n := |list| - 1;
            FirstWithId(list, m) <==>
              FirstWithId(list[..n], m) || (m == list[n] && forall y | y in list[..n] :: y.memberId != m.memberId)
  {
    var n := |list| - 1;
    if i :| 0 <= i < n && list[..n][i] == m && forall k | 0 <= k < i :: list[..n][k].memberId != m.memberId {
      assert list[i] == m && forall k | 0 <= k < i :: list[k].memberId == list[..n][k].memberId;
    }
    if i :| 0 <= i < |list| && list[i] == m && forall k | 0 <= k < i :: list[k].memberId != m.memberId {
      assert i < n ==> list[..n][i] == m;
      assert forall k | 0 <= k < i :: list[..n][k] == list[k];
    }
    if m == list[n] && forall y | y in list[..n] :: y.memberId != m.memberId {
      forall k | 0 <= k < n ensures list[k].memberId != m.memberId {
        assert list[k] in list[..n];
      }
    }
  }

  lemma {:induction false} AdultsMerged(adults: seq<Member>, m: Member)
    ensures m.memberId in MergeAdults(adults) <==> exists a :: a in adults && a.memberId == m.memberId
    ensures m.memberId in MergeAdults(adults) && MergeAdults(adults)[m.memberId] == m <==> LastWithId(adults, m)
  {
    if adults != [] {
      var n := |adults| - 1;
      AdultsMerged(adults[..n], m);
      LastOfLonger(adults, m);
      assert adults == adults[..n] + [adults[n]];
      assert adults[n] in adults;
    }
  }

  lemma {:induction false} MergedIds(adults: seq<Member>, youths: seq<Member>, m: Member)
    ensures m.memberId in MergeYouths(adults, youths) <==>
              exists x :: x in adults + youths && x.memberId == m.memberId
  {
    hide LastWithId;
    if youths == [] {
      assert adults + youths == adults;
      AdultsMerged(adults, m);
    } else {
      var n := |youths| - 1;
      MergedIds(adults, youths[..n], m);
      assert adults + youths == adults + youths[..n] + [youths[n]];
    }
  }

  lemma ChosenAdult(adults: seq<Member>, m: Member)
    ensures Chosen(adults, [], m) <==> LastWithId(adults, m)
  {
  }

  /** One more youth counts if its ID is new. */
  lemma ChosenOfLonger(adults: seq<Member>, youths: seq<Member>, m: Member)
    requires youths != []
    ensures var front, last := youths[..|youths| - 1], youths[|youths| - 1];
            Chosen(adults, youths, m) <==>
              Chosen(adults, front, m)
              || (m == last && forall x | x in adults + front :: x.memberId != m.memberId)
  {
    FirstOfLonger(youths, m);
    hide LastWithId, FirstWithId;
    var front := youths[..|youths| - 1];
    forall x ensures x in adults + front <==> x in adults || x in front {
    }
  }

  lemma {:induction false} MergedMembers(adults: seq<Member>, youths: seq<Member>, m: Member)
    ensures m.memberId in MergeYouths(adults, youths) && MergeYouths(adults, youths)[m.memberId] == m <==>
              Chosen(adults, youths, m)
  {
    hide Chosen, LastWithId;
    if youths == [] {
      AdultsMerged(adults, m);
      ChosenAdult(adults, m);
    } else {
      var front, last := youths[..|youths| - 1], youths[|youths| - 1];
      MergedMembers(adults, front, m);
      ChosenOfLonger(adults, youths, m);
      MergedIds(adults, front, m);
    }
  }

  /** The merged roster has exactly the listed IDs, and for each of them the member whose data count. */
  lemma MergeMeaning(adults: seq<Member>, youths: seq<Member>, m: Member)
    ensures m.memberId in MergeYouths(adults, youths) <==>
              exists x :: x in adults + youths && x.memberId == m.memberId
    ensures m.memberId in MergeYouths(adults, youths) && MergeYouths(adults, youths)[m.memberId] == m <==>
              Chosen(adults, youths, m)
  {
    MergedIds(adults, youths, m);
    MergedMembers(adults, youths, m);
  }

  // ----- One profile -----

  /** The roster overwrites most fields; email, phone and birth date only when it has them. */
  function Overlay(p: Profile, m: Member, adult: bool): Profile {
    p.(firstName := m.firstName,
       lastName := m.lastName,
       nickname := m.nickname,
       gender := m.gender,
       positions := m.positions,
       memberType := if adult then Adult else Youth,
       status := Active,
       email := if m.email != "" then m.email else p.email,
       phone := if m.phone != "" then m.phone else p.phone,
       birthdate := if m.birth.Some? then m.birth.value else p.birthdate)
  }

  function NewProfile(id: Id, m: Member, adult: bool): Profile {
    Overlay(Profile(id, m.memberId, "", "", "", "", "", "", ZERO_TIME, Youth, Active, None, ""), m, adult)
  }

  function OverlayIn(ro: Roster, p: Profile): Profile
    requires Listed(ro, p)
  {
    Overlay(p, ro.members[p.bsaId], p.bsaId in ro.adults)
  }

  /** What becomes of a profile: updated when listed, deactivated when it has an ID that is not on the roster. */
  function Final(ro: Roster, p: Profile): Profile {
    if Listed(ro, p) then OverlayIn(ro, p)
    else if p.bsaId != "" && p.status == Active then p.(status := Inactive)
    else p
  }

  datatype Snapshot = Snapshot(
    bsaId: string,
    firstName: string,
    lastName: string,
    nickname: string,
    gender: string,
    email: string,
    phone: string,
    birthdate: Instant,
    memberType: MemberType,
    status: Status,
    positions: string,
    userId: Option<Id>)

  function SnapshotOf(p: Profile): Snapshot {
    Snapshot(p.bsaId, p.firstName, p.lastName, p.nickname, p.gender, p.email, p.phone, p.birthdate,
             p.memberType, p.status, p.positions, p.userId)
  }

  /** A revert writes every snapshot field back except the BSA ID and the user link. */
  function Restore(p: Profile, prior: Snapshot): Profile {
    p.(firstName := prior.firstName,
       lastName := prior.lastName,
       nickname := prior.nickname,
       gender := prior.gender,
       email := prior.email,
       phone := prior.phone,
       birthdate := prior.birthdate,
       memberType := prior.memberType,
       status := prior.status,
       positions := prior.positions)
  }

  // ----- The stores -----

  ghost predicate UniqueBsa(ps: People) {
    forall a, b | a in ps && b in ps && ps[a].bsaId == ps[b].bsaId != "" :: a == b
  }

  ghost predicate UniqueUsers(ps: People) {
    forall a, b | a in ps && b in ps && ps[a].userId == ps[b].userId != None :: a == b
  }

  ghost predicate PeopleOk(ps: People) {
    Keyed(ps) && UniqueBsa(ps) && UniqueUsers(ps)
  }

  ghost predicate HasBsa(ps: People, b: string) {
    exists id :: id in ps && ps[id].bsaId == b
  }

  /** The profile a user is linked to. */
  ghost function OwnerOf(ps: People, u: Id): Option<Id> {
    if exists id :: id in ps && ps[id].userId == Some(u) then
      var id :| id in ps && ps[id].userId == Some(u); Some(id)
    else None
  }

  /** The role names of a user once the members in `done` have been processed. */
  ghost function RolesFor(ps: People, rs: RoleStore, ro: Roster, done: set<string>, u: Id): set<string>
  {
    match OwnerOf(ps, u)
    case None => RoleNames(rs, u)
    case Some(id) =>
      if id in ps && Listed(ro, ps[id]) && ps[id].bsaId in done then
        Reconciled(RoleNames(rs, u), Targets(ro.members[ps[id].bsaId].positions))
      else RoleNames(rs, u)
  }

  // ----- The report -----

  datatype ReportStatus = Created | Updated | RolesOnly | Deactivated

  datatype Entry = Entry(
    profileId: Id,
    memberId: string,
    name: string,
    status: ReportStatus,
    before: Option<Snapshot>,
    after: Snapshot,
    rolesAdded: seq<string>,
    rolesRemoved: seq<string>)

  ghost function AddedFor(rs: RoleStore, ro: Roster, p: Profile): set<string> {
    if p.userId.Some? && Listed(ro, p)
    then Added(RoleNames(rs, p.userId.value), Targets(ro.members[p.bsaId].positions)) else {}
  }

  ghost function RemovedFor(rs: RoleStore, ro: Roster, p: Profile): set<string> {
    if p.userId.Some? && Listed(ro, p)
    then Removed(RoleNames(rs, p.userId.value), Targets(ro.members[p.bsaId].positions)) else {}
  }

  /** The sync changed the profile or the roles of its user. */
  ghost predicate Touched(rs: RoleStore, ro: Roster, p: Profile) {
    Final(ro, p) != p || AddedFor(rs, ro, p) != {} || RemovedFor(rs, ro, p) != {}
  }

  function StatusFor(ro: Roster, p: Profile): ReportStatus {
    if !Listed(ro, p) then Deactivated else if Final(ro, p) != p then Updated else RolesOnly
  }

  ghost predicate EntryFor(rs: RoleStore, ro: Roster, p: Profile, r: Entry) {
    && r.profileId == p.id && r.memberId == p.bsaId && r.name == DisplayName(Final(ro, p))
    && r.status == StatusFor(ro, p)
    && r.before == Some(SnapshotOf(p)) && r.after == SnapshotOf(Final(ro, p))
    && Distinct(r.rolesAdded) && Names(r.rolesAdded) == AddedFor(rs, ro, p)
    && Distinct(r.rolesRemoved) && Names(r.rolesRemoved) == RemovedFor(rs, ro, p)
  }

  predicate CreatedEntry(q: Profile, r: Entry) {
    r == Entry(q.id, q.bsaId, DisplayName(q), Created, None, SnapshotOf(q), [], [])
  }

  /** Every entry describes what happened to its profile. */
  ghost predicate EntryOk(ps: People, rs: RoleStore, ro: Roster, ps': People, r: Entry) {
    if r.profileId in ps then Touched(rs, ro, ps[r.profileId]) && EntryFor(rs, ro, ps[r.profileId], r)
    else r.profileId in ps' && CreatedEntry(ps'[r.profileId], r)
  }

  ghost function Reported(report: seq<Entry>): set<Id> {
    set i | 0 <= i < |report| :: report[i].profileId
  }

  ghost predicate DistinctEntries(report: seq<Entry>) {
    forall i, j | 0 <= i < j < |report| :: report[i].profileId != report[j].profileId
  }

  /** The report lists the created profiles and the touched ones, each once. */
  ghost predicate ReportOk(ps: People, rs: RoleStore, ro: Roster, ps': People, report: seq<Entry>) {
    && DistinctEntries(report)
    && (forall i | 0 <= i < |report| :: EntryOk(ps, rs, ro, ps', report[i]))
    && forall id | id in ps' :: id in Reported(report) <==> id !in ps || Touched(rs, ro, ps[id])
  }

  // ----- The final state -----

  ghost predicate CreatedOk(ps: People, ro: Roster, id: Id, q: Profile) {
    q.bsaId in ro.members && !HasBsa(ps, q.bsaId) && q == NewProfile(id, ro.members[q.bsaId], q.bsaId in ro.adults)
  }

  /** A member without an ID takes some profile without an ID, and gets a new profile only if there is none. */
  ghost predicate PickOk(ps: People, ro: Roster) {
    if "" in ro.members && HasBsa(ps, "") then ro.pick.Some? && ro.pick.value in ps && ps[ro.pick.value].bsaId == ""
    else ro.pick.None?
  }

  /** No two of the new profiles have the same ID. */
  ghost predicate NewDistinct(ps: People, ps': People) {
    forall a, b | a in ps' && b in ps' && a !in ps && b !in ps && ps'[a].bsaId == ps'[b].bsaId :: a == b
  }

  /** The outcome of a sync: a relation that does not mention the order of the members. */
  ghost predicate Synced(ps: People, rs: RoleStore, ro: Roster, ps': People, rs': RoleStore, report: seq<Entry>) {
    && PeopleOk(ps') && PickOk(ps, ro) && NewDistinct(ps, ps')
    && (forall id | id in ps :: id in ps' && ps'[id] == Final(ro, ps[id]))
    && (forall id | id in ps' && id !in ps :: CreatedOk(ps, ro, id, ps'[id]))
    && (forall b | b in ro.members :: HasBsa(ps', b))
    && (forall u :: RoleNames(rs', u) == RolesFor(ps, rs, ro, ro.members.Keys, u))
    && ReportOk(ps, rs, ro, ps', report)
  }
}
