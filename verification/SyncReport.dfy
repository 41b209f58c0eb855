/** The counters of a sync report and its final order (internal/domain/sync/service.go). */
module SyncReport {
  import opened Common
  import opened Profiles
  import opened RoleSpec
  import opened SyncSpec
  import opened SyncLaws

  datatype Counters = Counters(created: nat, updated: nat, deactivated: nat, rolesAdded: nat, rolesRemoved: nat)

  function Plus(a: Counters, b: Counters): Counters {
    Counters(a.created + b.created, a.updated + b.updated, a.deactivated + b.deactivated,
             a.rolesAdded + b.rolesAdded, a.rolesRemoved + b.rolesRemoved)
  }

  function Weight(r: Entry): Counters {
    match r.status
    case Created => Counters(1, 0, 0, |r.rolesAdded|, |r.rolesRemoved|)
    case Updated => Counters(0, 1, 0, |r.rolesAdded|, |r.rolesRemoved|)
    case RolesOnly => Counters(0, 1, 0, |r.rolesAdded|, |r.rolesRemoved|)
    case Deactivated => Counters(0, 0, 1, |r.rolesAdded|, |r.rolesRemoved|)
  }

  function Tally(report: seq<Entry>): Counters {
    if report == [] then Counters(0, 0, 0, 0, 0)
    else Plus(Tally(report[..|report| - 1]), Weight(report[|report| - 1]))
  }

  method ComputeCounters(report: seq<Entry>) returns (c: Counters)
    ensures c == Tally(report)
  {
    var created, updated, deactivated := 0, 0, 0;
    var rolesAdded: nat, rolesRemoved: nat := 0, 0;
    for i := 0 to |report|
      invariant Counters(created, updated, deactivated, rolesAdded, rolesRemoved) == Tally(report[..i])
    {
      assert report[..i + 1][..i] == report[..i];
      match report[i].status {
        case Created => created := created + 1;
        case Updated => updated := updated + 1;
        case RolesOnly => updated := updated + 1;
        case Deactivated => deactivated := deactivated + 1;
      }
      rolesAdded := rolesAdded + |report[i].rolesAdded|;
      rolesRemoved := rolesRemoved + |report[i].rolesRemoved|;
    }
    assert report[..|report|] == report;
    c := Counters(created, updated, deactivated, rolesAdded, rolesRemoved);
  }

  lemma {:induction false} TallyConcat(a: seq<Entry>, b: seq<Entry>)
    ensures Tally(a + b) == Plus(Tally(a), Tally(b))
  {
    if b == [] {
      assert a + b == a;
    } else {
      assert (a + b)[..|a + b| - 1] == a + b[..|b| - 1];
      TallyConcat(a, b[..|b| - 1]);
    }
  }

  lemma PlusCommutes(a: Counters, b: Counters, c: Counters)
    ensures Plus(Plus(a, b), c) == Plus(Plus(a, c), b)
  {
  }

  lemma TallyOne(r: Entry)
    ensures Tally([r]) == Weight(r)
  {
  }

  /** Where an entry stands in the report does not matter to the counters. */
  lemma TallyInsert(a: seq<Entry>, r: Entry, b: seq<Entry>)
    ensures Tally(a + [r] + b) == Plus(Tally(a + b), Weight(r))
  {
    TallyOne(r);
    TallyConcat(a, [r]);
    TallyConcat(a + [r], b);
    TallyConcat(a, b);
    PlusCommutes(Tally(a), Weight(r), Tally(b));
  }

  // ----- What the counters count -----

  ghost function With(report: seq<Entry>, statuses: set<ReportStatus>): set<Id> {
    set i | 0 <= i < |report| && report[i].status in statuses :: report[i].profileId
  }

  lemma {:induction false} TallyCounts(report: seq<Entry>)
    requires DistinctEntries(report)
    ensures Tally(report).created == |With(report, {Created})|
    ensures Tally(report).updated == |With(report, {Updated, RolesOnly})|
    ensures Tally(report).deactivated == |With(report, {Deactivated})|
    ensures Tally(report).created + Tally(report).updated + Tally(report).deactivated == |report|
  {
    if report != [] {
      TallyCounts(report[..|report| - 1]);
      WithLast(report, {Created});
      WithLast(report, {Updated, RolesOnly});
      WithLast(report, {Deactivated});
    }
  }

  lemma WithLast(report: seq<Entry>, statuses: set<ReportStatus>)
    requires report != [] && DistinctEntries(report)
    ensures var n := |report| - 1;
            |With(report, statuses)| == |With(report[..n], statuses)| + if report[n].status in statuses then 1 else 0
  {
    var n := |report| - 1;
    var last := report[n];
    var front := report[..n];
    assert last.profileId !in With(front, statuses);
    var added: set<Id> := if last.status in statuses then {last.profileId} else {};
    forall id ensures id in With(report, statuses) <==> id in With(front, statuses) + added {
      if id in With(front, statuses) {
        var i :| 0 <= i < n && front[i].status in statuses && front[i].profileId == id;
        assert report[i].profileId == id;
      }
      assert report[n].profileId == last.profileId;
    }
    assert With(report, statuses) == With(front, statuses) + added;
  }

  /** Those whose profile the sync switched from active to inactive. */
  function Leavers(ps: People, ps': People): set<Id> {
    set id | id in ps && id in ps' && ps[id].status == Active && ps'[id].status == Inactive
  }

  lemma EntryStatus(ps: People, rs: RoleStore, ro: Roster, ps': People, rs': RoleStore, report: seq<Entry>, id: Id,
                    st: ReportStatus)
    requires Synced(ps, rs, ro, ps', rs', report) && id in With(report, {st})
    ensures id in ps' && id in Reported(report)
    ensures st == if id !in ps then Created else StatusFor(ro, ps[id])
    ensures id in ps ==> Touched(rs, ro, ps[id])
  {
  }

  lemma HasStatus(ps: People, rs: RoleStore, ro: Roster, ps': People, rs': RoleStore, report: seq<Entry>, id: Id)
    requires Synced(ps, rs, ro, ps', rs', report) && id in Reported(report)
    ensures id in With(report, {if id !in ps then Created else StatusFor(ro, ps[id])})
  {
  }

  lemma CreatedAre(ps: People, rs: RoleStore, ro: Roster, ps': People, rs': RoleStore, report: seq<Entry>)
    requires Synced(ps, rs, ro, ps', rs', report)
    ensures With(report, {Created}) == ps'.Keys - ps.Keys && ps.Keys <= ps'.Keys
  {
    assert forall id | id in ps :: id in ps';
    forall id ensures id in With(report, {Created}) <==> id in ps'.Keys - ps.Keys {
      if id in With(report, {Created}) {
        EntryStatus(ps, rs, ro, ps', rs', report, id, Created);
      } else if id in ps' && id !in ps {
        HasStatus(ps, rs, ro, ps', rs', report, id);
      }
    }
  }

  lemma GrownBy(small: set<Id>, large: set<Id>)
    requires small <= large
    ensures |large| == |small| + |large - small|
  {
  }

  lemma DeactivatedAre(ps: People, rs: RoleStore, ro: Roster, ps': People, rs': RoleStore, report: seq<Entry>)
    requires Synced(ps, rs, ro, ps', rs', report)
    ensures With(report, {Deactivated}) == Leavers(ps, ps')
  {
    forall id ensures id in With(report, {Deactivated}) <==> id in Leavers(ps, ps') {
      if id in With(report, {Deactivated}) {
        EntryStatus(ps, rs, ro, ps', rs', report, id, Deactivated);
      } else if id in Leavers(ps, ps') {
        HasStatus(ps, rs, ro, ps', rs', report, id);
      }
    }
  }

  /** The counters tell the truth: they add up to the report, and created and deactivated are the exact numbers
      of profiles added and switched to inactive. */
  lemma CountersAddUp(ps: People, rs: RoleStore, ro: Roster, ps': People, rs': RoleStore, report: seq<Entry>)
    requires Synced(ps, rs, ro, ps', rs', report)
    ensures var c := Tally(report);
            && c.created + c.updated + c.deactivated == |report|
            && |ps'| == |ps| + c.created
            && c.deactivated == |Leavers(ps, ps')|
  {
    CreatedAre(ps, rs, ro, ps', rs', report);
    DeactivatedAre(ps, rs, ro, ps', rs', report);
    CountsAddUp(ps, ps', report);
  }

  lemma CountsAddUp(ps: People, ps': People, report: seq<Entry>)
    requires DistinctEntries(report)
    requires With(report, {Created}) == ps'.Keys - ps.Keys && ps.Keys <= ps'.Keys
    requires With(report, {Deactivated}) == Leavers(ps, ps')
    ensures var c := Tally(report);
            && c.created + c.updated + c.deactivated == |report|
            && |ps'| == |ps| + c.created
            && c.deactivated == |Leavers(ps, ps')|
  {
    TallyCounts(report);
    GrownBy(ps.Keys, ps'.Keys);
  }

  // ----- Sorting -----

  /** No two entries have the same name and member ID. */
  ghost predicate DistinctKeys(report: seq<Entry>) {
    forall i, j | 0 <= i < j < |report| :: report[i].memberId != report[j].memberId
  }

  ghost predicate SameEntries(a: seq<Entry>, b: seq<Entry>) {
    |a| == |b| && forall r :: r in a <==> r in b
  }

  /** The report in the order of display name and member ID. */
  method SortEntries(report: seq<Entry>) returns (sorted: seq<Entry>)
    requires DistinctKeys(report)
    ensures ReportSorted(sorted) && SameEntries(sorted, report) && Tally(sorted) == Tally(report)
  {
    sorted := [];
    for i := 0 to |report|
      invariant ReportSorted(sorted) && SameEntries(sorted, report[..i]) && Tally(sorted) == Tally(report[..i])
    {
      var r := report[i];
      var front := report[..i];
      assert report[..i + 1] == front + [r] && front + [] == front && (front + [r]) + [] == front + [r];
      forall s | s in sorted ensures s.memberId != r.memberId {
        var j :| 0 <= j < i && report[j] == s;
      }
      TallyInsert(front, r, []);
      sorted := Insert(sorted, r);
    }
    assert report[..|report|] == report;
  }

  method Insert(list: seq<Entry>, r: Entry) returns (longer: seq<Entry>)
    requires ReportSorted(list) && forall s | s in list :: s.memberId != r.memberId
    ensures ReportSorted(longer) && SameEntries(longer, list + [r]) && Tally(longer) == Plus(Tally(list), Weight(r))
  {
    var k := 0;
    while k < |list| && EntryLess(list[k], r)
      invariant k <= |list| && forall i | 0 <= i < k :: EntryLess(list[i], r)
    {
      k := k + 1;
    }
    InsertSorted(list, r, k);
    TallyInsert(list[..k], r, list[k..]);
    assert list[..k] + list[k..] == list;
    longer := list[..k] + [r] + list[k..];
    assert forall s :: s in longer <==> s in list[..k] || s == r || s in list[k..];
  }

  lemma InsertSorted(list: seq<Entry>, r: Entry, k: nat)
    requires ReportSorted(list) && k <= |list| && forall s | s in list :: s.memberId != r.memberId
    requires forall i | 0 <= i < k :: EntryLess(list[i], r)
    requires k < |list| ==> !EntryLess(list[k], r)
    ensures ReportSorted(list[..k] + [r] + list[k..])
  {
    forall i | k <= i < |list| ensures EntryLess(r, list[i]) {
      assert list[k] in list;
      EntryLessTotal(list[k], r);
      if i > k {
        EntryLessTransitive(r, list[k], list[i]);
      }
    }
  }

  // ----- The relation does not see the order of the report -----

  lemma SortedKeysDistinct(report: seq<Entry>)
    requires ReportSorted(report)
    ensures forall i, j | 0 <= i < j < |report| :: report[i] != report[j]
  {
    forall i, j | 0 <= i < j < |report| ensures report[i] != report[j] {
      EntryLessAsymmetric(report[i], report[j]);
    }
  }

  lemma MemberIdOf(ps: People, rs: RoleStore, ro: Roster, ps': People, rs': RoleStore, report: seq<Entry>, i: nat)
    requires PeopleOk(ps) && RosterOk(ro) && Synced(ps, rs, ro, ps', rs', report) && i < |report|
    ensures var id := report[i].profileId;
            && id in ps' && ps'[id].bsaId == report[i].memberId
            && (id in ps && report[i].memberId == "" ==> ro.pick == Some(id))
            && (id !in ps ==> CreatedOk(ps, ro, id, ps'[id]))
  {
    var r := report[i];
    assert EntryOk(ps, rs, ro, ps', r);
    if r.profileId in ps {
      assert Touched(rs, ro, ps[r.profileId]);
      FinalIsFixed(ro, ps[r.profileId]);
    }
  }

  lemma ReportKeysDistinct(ps: People, rs: RoleStore, ro: Roster, ps': People, rs': RoleStore, report: seq<Entry>)
    requires PeopleOk(ps) && RosterOk(ro) && Synced(ps, rs, ro, ps', rs', report)
    ensures DistinctKeys(report)
  {
    forall i, j | 0 <= i < j < |report| ensures report[i].memberId != report[j].memberId {
      TwoKeys(ps, rs, ro, ps', rs', report, i, j);
    }
  }

  lemma TwoKeys(ps: People, rs: RoleStore, ro: Roster, ps': People, rs': RoleStore, report: seq<Entry>, i: nat, j: nat)
    requires PeopleOk(ps) && RosterOk(ro) && Synced(ps, rs, ro, ps', rs', report) && i < j < |report|
    ensures report[i].memberId != report[j].memberId
  {
    MemberIdOf(ps, rs, ro, ps', rs', report, i);
    MemberIdOf(ps, rs, ro, ps', rs', report, j);
    var a, b := report[i].profileId, report[j].profileId;
    assert a != b;
    assert a in ps && ps[a].bsaId == "" ==> HasBsa(ps, "");
    assert b in ps && ps[b].bsaId == "" ==> HasBsa(ps, "");
  }

  lemma SyncedAnyOrder(ps: People, rs: RoleStore, ro: Roster, ps': People, rs': RoleStore, report: seq<Entry>,
                       sorted: seq<Entry>)
    requires Synced(ps, rs, ro, ps', rs', report) && SameEntries(sorted, report) && ReportSorted(sorted)
    ensures Synced(ps, rs, ro, ps', rs', sorted)
  {
    SortedKeysDistinct(sorted);
    forall i | 0 <= i < |sorted| ensures EntryOk(ps, rs, ro, ps', sorted[i]) {
      assert sorted[i] in report;
    }
    forall i, j | 0 <= i < j < |sorted| ensures sorted[i].profileId != sorted[j].profileId {
      assert sorted[i] in report && sorted[j] in report;
      var a :| 0 <= a < |report| && report[a] == sorted[i];
      var b :| 0 <= b < |report| && report[b] == sorted[j];
    }
    forall id ensures id in Reported(sorted) <==> id in Reported(report) {
      SameReported(sorted, report, id);
      SameReported(report, sorted, id);
    }
    assert Reported(sorted) == Reported(report);
  }

  lemma SameReported(a: seq<Entry>, b: seq<Entry>, id: Id)
    requires forall r | r in a :: r in b
    ensures id in Reported(a) ==> id in Reported(b)
  {
    if id in Reported(a) {
      var i :| 0 <= i < |a| && a[i].profileId == id;
      assert a[i] in b;
    }
  }
}
