/** What a sync in progress has done so far, and why every step of its loops keeps it. */
module SyncProgress {
  import opened Common
  import opened Profiles
  import opened Positions
  import opened RoleSpec
  import opened SyncSpec

  /** The members in `done` have been processed; the profiles in `settled` have their final value. */
  ghost predicate PeopleSoFar(ps0: People, ro: Roster, done: set<string>, settled: set<Id>, ps: People) {
    && PeopleOk(ps) && NewDistinct(ps0, ps) && settled <= ps0.Keys && done <= ro.members.Keys
    && (forall id | id in ps0 && Listed(ro, ps0[id]) :: id in settled <==> ps0[id].bsaId in done)
    && (forall id | id in ps0 :: id in ps && ps[id] == if id in settled then Final(ro, ps0[id]) else ps0[id])
    && (forall id | id in ps && id !in ps0 :: CreatedOk(ps0, ro, id, ps[id]) && ps[id].bsaId in done)
    && (forall b | b in done :: HasBsa(ps, b))
  }

  ghost predicate RolesSoFar(ps0: People, rs0: RoleStore, ro: Roster, done: set<string>, rs: RoleStore) {
    && done <= ro.members.Keys
    && forall u :: RoleNames(rs, u) == RolesFor(ps0, rs0, ro, done, u)
  }

  ghost predicate ReportSoFar(ps0: People, rs0: RoleStore, ro: Roster, settled: set<Id>, ps: People,
                              report: seq<Entry>) {
    && DistinctEntries(report)
    && (forall i | 0 <= i < |report| :: EntryOk(ps0, rs0, ro, ps, report[i]))
    && forall id | id in ps :: id in Reported(report) <==> id !in ps0 || (id in settled && Touched(rs0, ro, ps0[id]))
  }

  ghost predicate SoFar(ps0: People, rs0: RoleStore, ro: Roster, done: set<string>, settled: set<Id>, ps: People,
                        rs: RoleStore, report: seq<Entry>) {
    && PeopleSoFar(ps0, ro, done, settled, ps)
    && RolesSoFar(ps0, rs0, ro, done, rs)
    && ReportSoFar(ps0, rs0, ro, settled, ps, report)
  }

  /** The effect of a role reconciliation on the user of one profile. */
  ghost predicate RolesMoved(rs: RoleStore, user: Option<Id>, targets: set<string>, rs': RoleStore) {
    forall u :: RoleNames(rs', u) == if user == Some(u) then Reconciled(RoleNames(rs, u), targets) else RoleNames(rs, u)
  }

  lemma AtTheStart(ps: People, rs: RoleStore, ro: Roster)
    requires PeopleOk(ps)
    ensures SoFar(ps, rs, ro, {}, {}, ps, rs, [])
  {
  }

  // ----- One more profile -----

  lemma PeopleOkAfterEdit(ps: People, id: Id, q: Profile)
    requires PeopleOk(ps) && id in ps && q.id == id && q.bsaId == ps[id].bsaId && q.userId == ps[id].userId
    ensures PeopleOk(ps[id := q])
  {
  }

  lemma PeopleOkAfterCreate(ps: People, id: Id, q: Profile)
    requires PeopleOk(ps) && id !in ps && q.id == id && q.userId == None && !HasBsa(ps, q.bsaId)
    ensures PeopleOk(ps[id := q])
  {
  }

  lemma HasBsaAfterEdit(ps: People, id: Id, q: Profile, b: string)
    requires id in ps ==> q.bsaId == ps[id].bsaId
    requires HasBsa(ps, b) || q.bsaId == b
    ensures HasBsa(ps[id := q], b)
  {
    if q.bsaId == b {
      assert ps[id := q][id].bsaId == b;
    } else {
      var k :| k in ps && ps[k].bsaId == b;
      assert ps[id := q][k].bsaId == b;
    }
  }

  /** A profile that is not settled yet gets its final value. */
  lemma SettlePerson(ps0: People, ro: Roster, done: set<string>, settled: set<Id>, ps: People, id: Id,
                     done': set<string>)
    requires PeopleOk(ps0) && RosterOk(ro) && PeopleSoFar(ps0, ro, done, settled, ps)
    requires id in ps0 && id !in settled && done <= done'
    requires done' == if Listed(ro, ps0[id]) then done + {ps0[id].bsaId} else done
    ensures PeopleSoFar(ps0, ro, done', settled + {id}, ps[id := Final(ro, ps0[id])])
  {
    var q := Final(ro, ps0[id]);
    PeopleOkAfterEdit(ps, id, q);
    forall b | b in done' ensures HasBsa(ps[id := q], b) {
      HasBsaAfterEdit(ps, id, q, b);
    }
    forall k | k in ps0 && Listed(ro, ps0[k]) ensures k in settled + {id} <==> ps0[k].bsaId in done' {
    }
  }

  lemma SettleReport(ps0: People, rs0: RoleStore, ro: Roster, done: set<string>, settled: set<Id>, ps: People,
                     report: seq<Entry>, id: Id, report': seq<Entry>)
    requires PeopleSoFar(ps0, ro, done, settled, ps) && ReportSoFar(ps0, rs0, ro, settled, ps, report)
    requires id in ps0 && id !in settled
    requires if Touched(rs0, ro, ps0[id]) then |report'| == |report| + 1 && report' == report + [report'[|report|]]
                                               && EntryFor(rs0, ro, ps0[id], report'[|report|])
             else report' == report
    requires ps0[id].id == id
    ensures ReportSoFar(ps0, rs0, ro, settled + {id}, ps[id := Final(ro, ps0[id])], report')
  {
    var ps' := ps[id := Final(ro, ps0[id])];
    assert id !in Reported(report);
    if Touched(rs0, ro, ps0[id]) {
      ReportedAppend(report, report'[|report|]);
    }
    forall i | 0 <= i < |report'| ensures EntryOk(ps0, rs0, ro, ps', report'[i]) {
      assert i < |report| ==> EntryOk(ps0, rs0, ro, ps, report[i]);
    }
  }

  lemma ReportedAppend(report: seq<Entry>, r: Entry)
    ensures Reported(report + [r]) == Reported(report) + {r.profileId}
    ensures DistinctEntries(report) && r.profileId !in Reported(report) ==> DistinctEntries(report + [r])
  {
    var all := report + [r];
    forall id ensures id in Reported(all) <==> id in Reported(report) + {r.profileId} {
      if id in Reported(report) {
        var i :| 0 <= i < |report| && report[i].profileId == id;
        assert all[i].profileId == id;
      }
      assert all[|report|].profileId == r.profileId;
    }
    forall i | 0 <= i < |report| ensures report[i].profileId in Reported(report) {
    }
  }

  lemma SettleRoles(ps0: People, rs0: RoleStore, ro: Roster, done: set<string>, rs: RoleStore, id: Id, rs': RoleStore)
    requires PeopleOk(ps0) && RosterOk(ro) && RolesSoFar(ps0, rs0, ro, done, rs)
    requires id in ps0 && Listed(ro, ps0[id]) && ps0[id].bsaId !in done
    requires RolesMoved(rs, ps0[id].userId, Targets(ro.members[ps0[id].bsaId].positions), rs')
    ensures RolesSoFar(ps0, rs0, ro, done + {ps0[id].bsaId}, rs')
    ensures ps0[id].userId.Some? ==> RoleNames(rs, ps0[id].userId.value) == RoleNames(rs0, ps0[id].userId.value)
  {
    forall u ensures RoleNames(rs', u) == RolesFor(ps0, rs0, ro, done + {ps0[id].bsaId}, u)
      ensures ps0[id].userId == Some(u) ==> RoleNames(rs, u) == RoleNames(rs0, u)
    {
      OwnerCases(ps0, ro, u, id);
    }
  }

  lemma OwnerCases(ps: People, ro: Roster, u: Id, id: Id)
    requires PeopleOk(ps) && id in ps
    ensures ps[id].userId == Some(u) ==> OwnerOf(ps, u) == Some(id)
    ensures ps[id].userId != Some(u) ==> OwnerOf(ps, u) != Some(id)
    ensures OwnerOf(ps, u).Some? ==> OwnerOf(ps, u).value in ps
    ensures OwnerOf(ps, u).Some? && OwnerOf(ps, u).value != id
            && Listed(ro, ps[id]) && Listed(ro, ps[OwnerOf(ps, u).value]) ==>
              ps[OwnerOf(ps, u).value].bsaId != ps[id].bsaId
  {
  }

  /** A listed profile whose member is still to come is as it was before the sync. */
  lemma Unprocessed(ps0: People, ro: Roster, done: set<string>, settled: set<Id>, ps: People, id: Id)
    requires PeopleSoFar(ps0, ro, done, settled, ps) && id in ps && Listed(ro, ps[id])
    ensures ps[id].bsaId in done || (id in ps0 && id !in settled && ps[id] == ps0[id])
  {
    if id in ps0 && id in settled {
      assert ps[id] == Final(ro, ps0[id]);
    }
  }

  /** The profiles of the members that have been processed. */
  ghost function Processed(ps0: People, ro: Roster, done: set<string>): set<Id> {
    set id | id in ps0 && Listed(ro, ps0[id]) && ps0[id].bsaId in done
  }

  lemma ProcessedOne(ps0: People, ro: Roster, done: set<string>, id: Id)
    requires PeopleOk(ps0) && id in ps0 && Listed(ro, ps0[id])
    ensures Processed(ps0, ro, done + {ps0[id].bsaId}) == Processed(ps0, ro, done) + {id}
  {
    forall k ensures k in Processed(ps0, ro, done + {ps0[id].bsaId}) <==> k in Processed(ps0, ro, done) + {id} {
    }
  }

  lemma ProcessedNone(ps0: People, ro: Roster, done: set<string>, b: string)
    requires !HasBsa(ps0, b)
    ensures Processed(ps0, ro, done + {b}) == Processed(ps0, ro, done)
  {
    forall k ensures k in Processed(ps0, ro, done + {b}) <==> k in Processed(ps0, ro, done) {
    }
  }

  /** Until the member without an ID is looked up, it does not matter which profile the lookup will find. */
  lemma PickLate(ps0: People, rs0: RoleStore, ro: Roster, done: set<string>, ps: People, rs: RoleStore,
                 report: seq<Entry>, ro': Roster)
    requires "" !in done && ro.pick.None? && ro' == ro.(pick := ro'.pick)
    requires SoFar(ps0, rs0, ro, done, Processed(ps0, ro, done), ps, rs, report)
    ensures SoFar(ps0, rs0, ro', done, Processed(ps0, ro', done), ps, rs, report)
  {
    SamePick(ps0, ro, ro', done);
    PickLatePeople(ps0, ro, done, Processed(ps0, ro, done), ps, ro');
    forall u ensures RolesFor(ps0, rs0, ro', done, u) == RolesFor(ps0, rs0, ro, done, u) {
    }
    PickLateReport(ps0, rs0, ro, done, Processed(ps0, ro, done), ps, report, ro');
  }

  lemma SamePick(ps0: People, ro: Roster, ro': Roster, done: set<string>)
    requires "" !in done && ro' == ro.(pick := ro'.pick)
    ensures Processed(ps0, ro', done) == Processed(ps0, ro, done)
  {
    forall k ensures k in Processed(ps0, ro', done) <==> k in Processed(ps0, ro, done) {
    }
  }

  lemma PickLatePeople(ps0: People, ro: Roster, done: set<string>, settled: set<Id>, ps: People, ro': Roster)
    requires "" !in done && ro.pick.None? && ro' == ro.(pick := ro'.pick) && settled == Processed(ps0, ro, done)
    requires PeopleSoFar(ps0, ro, done, settled, ps)
    ensures PeopleSoFar(ps0, ro', done, settled, ps)
  {
    forall id | id in ps && id !in ps0 ensures CreatedOk(ps0, ro', id, ps[id]) && ps[id].bsaId in done {
      assert CreatedOk(ps0, ro, id, ps[id]);
    }
  }

  lemma PickLateReport(ps0: People, rs0: RoleStore, ro: Roster, done: set<string>, settled: set<Id>, ps: People,
                       report: seq<Entry>, ro': Roster)
    requires "" !in done && ro.pick.None? && ro' == ro.(pick := ro'.pick) && settled == Processed(ps0, ro, done)
    requires ReportSoFar(ps0, rs0, ro, settled, ps, report)
    ensures ReportSoFar(ps0, rs0, ro', settled, ps, report)
  {
    forall i | 0 <= i < |report| ensures EntryOk(ps0, rs0, ro', ps, report[i]) {
      assert EntryOk(ps0, rs0, ro, ps, report[i]);
    }
  }

  // ----- The three steps -----

  /** A member with a profile: the fields are overlaid and the roles reconciled. */
  lemma UpdateStep(ps0: People, rs0: RoleStore, ro: Roster, done: set<string>, ps: People, rs: RoleStore,
                   report: seq<Entry>, id: Id, rs': RoleStore, entry: Option<Entry>)
    requires PeopleOk(ps0) && RosterOk(ro) && SoFar(ps0, rs0, ro, done, Processed(ps0, ro, done), ps, rs, report)
    requires id in ps && Listed(ro, ps[id]) && ps[id].bsaId !in done
    requires RolesMoved(rs, ps[id].userId, Targets(ro.members[ps[id].bsaId].positions), rs')
    requires entry.Some? <==> Touched(rs, ro, ps[id])
    requires entry.Some? ==> EntryFor(rs, ro, ps[id], entry.value)
    ensures var done' := done + {ps[id].bsaId};
            var report' := if entry.Some? then report + [entry.value] else report;
            SoFar(ps0, rs0, ro, done', Processed(ps0, ro, done'), ps[id := OverlayIn(ro, ps[id])], rs', report')
  {
    var settled := Processed(ps0, ro, done);
    Unprocessed(ps0, ro, done, settled, ps, id);
    var report' := if entry.Some? then report + [entry.value] else report;
    SettlePerson(ps0, ro, done, settled, ps, id, done + {ps[id].bsaId});
    SettleRoles(ps0, rs0, ro, done, rs, id, rs');
    assert Touched(rs, ro, ps[id]) == Touched(rs0, ro, ps0[id]);
    SettleReport(ps0, rs0, ro, done, settled, ps, report, id, report');
    ProcessedOne(ps0, ro, done, id);
  }

  lemma NewStayDistinct(ps0: People, ps: People, id: Id, q: Profile)
    requires NewDistinct(ps0, ps) && !HasBsa(ps, q.bsaId)
    ensures NewDistinct(ps0, ps[id := q])
  {
  }

  lemma NoneBefore(ps0: People, ro: Roster, done: set<string>, settled: set<Id>, ps: People, b: string)
    requires PeopleSoFar(ps0, ro, done, settled, ps) && !HasBsa(ps, b)
    ensures !HasBsa(ps0, b)
  {
    forall k | k in ps0 ensures ps0[k].bsaId != b {
      assert ps[k].bsaId == ps0[k].bsaId;
    }
  }

  lemma CreatePerson(ps0: People, ro: Roster, done: set<string>, settled: set<Id>, ps: People, b: string, id: Id)
    requires RosterOk(ro) && PeopleSoFar(ps0, ro, done, settled, ps)
    requires b in ro.members && b !in done && !HasBsa(ps, b) && id !in ps
    ensures !HasBsa(ps0, b)
    ensures PeopleSoFar(ps0, ro, done + {b}, settled, ps[id := NewProfile(id, ro.members[b], b in ro.adults)])
  {
    hide NewDistinct, PeopleOk;
    var q := NewProfile(id, ro.members[b], b in ro.adults);
    NoneBefore(ps0, ro, done, settled, ps, b);
    PeopleOkAfterCreate(ps, id, q);
    NewStayDistinct(ps0, ps, id, q);
    forall c | c in done + {b} ensures HasBsa(ps[id := q], c) {
      HasBsaAfterEdit(ps, id, q, c);
    }
    assert CreatedOk(ps0, ro, id, q);
  }

  lemma CreateReport(ps0: People, rs0: RoleStore, ro: Roster, done: set<string>, settled: set<Id>, ps: People,
                     report: seq<Entry>, q: Profile, r: Entry)
    requires PeopleSoFar(ps0, ro, done, settled, ps) && ReportSoFar(ps0, rs0, ro, settled, ps, report)
    requires q.id !in ps && CreatedEntry(q, r)
    ensures ReportSoFar(ps0, rs0, ro, settled, ps[q.id := q], report + [r])
  {
    var ps' := ps[q.id := q];
    var report' := report + [r];
    forall i | 0 <= i < |report'|
      ensures EntryOk(ps0, rs0, ro, ps', report'[i]) && (i < |report| ==> report[i].profileId != q.id)
    {
      assert i < |report| ==> EntryOk(ps0, rs0, ro, ps, report[i]);
    }
    ReportedAppend(report, r);
  }

  /** A member without a profile: one is created, nobody's roles change. */
  lemma CreateStep(ps0: People, rs0: RoleStore, ro: Roster, done: set<string>, ps: People, rs: RoleStore,
                   report: seq<Entry>, b: string, id: Id, r: Entry)
    requires PeopleOk(ps0) && RosterOk(ro) && SoFar(ps0, rs0, ro, done, Processed(ps0, ro, done), ps, rs, report)
    requires b in ro.members && b !in done && !HasBsa(ps, b) && id !in ps
    requires CreatedEntry(NewProfile(id, ro.members[b], b in ro.adults), r)
    ensures SoFar(ps0, rs0, ro, done + {b}, Processed(ps0, ro, done + {b}),
                  ps[id := NewProfile(id, ro.members[b], b in ro.adults)], rs, report + [r])
  {
    var settled := Processed(ps0, ro, done);
    CreatePerson(ps0, ro, done, settled, ps, b, id);
    CreateReport(ps0, rs0, ro, done, settled, ps, report, NewProfile(id, ro.members[b], b in ro.adults), r);
    forall u ensures RolesFor(ps0, rs0, ro, done + {b}, u) == RolesFor(ps0, rs0, ro, done, u) {
      assert OwnerOf(ps0, u).Some? ==> OwnerOf(ps0, u).value in ps0;
    }
    ProcessedNone(ps0, ro, done, b);
  }

  /** A profile that is not on the roster: deactivated when active and identified, otherwise left alone. */
  lemma LeaverStep(ps0: People, rs0: RoleStore, ro: Roster, done: set<string>, settled: set<Id>, ps: People,
                   rs: RoleStore, report: seq<Entry>, id: Id, report': seq<Entry>)
    requires PeopleOk(ps0) && RosterOk(ro) && SoFar(ps0, rs0, ro, done, settled, ps, rs, report)
    requires id in ps0 && ps0[id].bsaId !in ro.members && id !in settled
    requires if Final(ro, ps0[id]) != ps0[id]
             then |report'| == |report| + 1 && report' == report + [report'[|report|]]
                  && EntryFor(rs0, ro, ps0[id], report'[|report|])
             else report' == report
    ensures SoFar(ps0, rs0, ro, done, settled + {id}, ps[id := Final(ro, ps0[id])], rs, report')
  {
    SettlePerson(ps0, ro, done, settled, ps, id, done);
    SettleReport(ps0, rs0, ro, done, settled, ps, report, id, report');
  }

  // ----- The end -----

  /** When every member is processed and every active profile settled, the sync is complete. */
  lemma AtTheEnd(ps0: People, rs0: RoleStore, ro: Roster, settled: set<Id>, ps: People, rs: RoleStore,
                 report: seq<Entry>)
    requires SoFar(ps0, rs0, ro, ro.members.Keys, settled, ps, rs, report) && PickOk(ps0, ro)
    requires forall id | id in ps0 && ps0[id].status == Active && ps0[id].bsaId !in ro.members :: id in settled
    ensures Synced(ps0, rs0, ro, ps, rs, report)
  {
    forall id | id in ps0 && id !in settled ensures Final(ro, ps0[id]) == ps0[id] && !Touched(rs0, ro, ps0[id]) {
    }
    assert forall b | b in ro.members :: b in ro.members.Keys;
  }
}
