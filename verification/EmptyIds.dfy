/** What a roster member without a BSA ID does to people without one: a second sync can overwrite another person, and a
    revert can write over the wrong one. */
module EmptyIds {
  import opened Common
  import opened Profiles
  import opened RoleSpec
  import opened SyncSpec
  import opened SyncLaws
  import opened SyncUndo

  const CAL := Member("", "Cal", "", "", "", "", "", None, "")
  const ANN := Profile(1, "", "Ann", "", "", "", "", "", ZERO_TIME, Youth, Active, None, "")
  const BOB := Profile(2, "", "Bob", "", "", "", "", "", ZERO_TIME, Youth, Active, None, "")
  const NO_ROLE_STORE := RoleStore(map[], map[])

  /** A roster with the one member, whose lookup finds the given profile. */
  function CalTakes(id: Id): Roster {
    RosterOf([], [CAL], Some(id))
  }

  function AsCal(p: Profile): Profile {
    p.(firstName := "Cal")
  }

  function CalEntry(p: Profile): Entry {
    Entry(p.id, "", DisplayName(AsCal(p)), Updated, Some(SnapshotOf(p)), SnapshotOf(AsCal(p)), [], [])
  }

  /** People without an ID and without a user, of whom the roster changes the first name only. */
  ghost predicate Plain(ps: People) {
    Keyed(ps) && forall id | id in ps ::
      ps[id].bsaId == "" && ps[id].userId.None? && Overlay(ps[id], CAL, false) == AsCal(ps[id])
  }

  lemma CalAlone(id: Id)
    ensures CalTakes(id) == Roster(map["" := CAL], {}, Some(id))
  {
    assert [CAL][..0] == [];
    assert MergeYouths([], [CAL]) == map["" := CAL];
  }

  lemma CalReport(ps: People, x: Id)
    requires Plain(ps) && x in ps && ps[x].firstName != "Cal"
    ensures ReportOk(ps, NO_ROLE_STORE, CalTakes(x), ps[x := AsCal(ps[x])], [CalEntry(ps[x])])
  {
    CalAlone(x);
    var ro, r := CalTakes(x), CalEntry(ps[x]);
    assert Names([]) == {};
    assert Final(ro, ps[x]) == AsCal(ps[x]) != ps[x];
    assert EntryFor(NO_ROLE_STORE, ro, ps[x], r);
    forall id | id in ps && id != x ensures !Touched(NO_ROLE_STORE, ro, ps[id]) {
      assert !Listed(ro, ps[id]);
    }
    assert [r][0].profileId == x;
    assert Reported([r]) == {x};
  }

  /** A sync that finds profile x for the member makes x that member. */
  lemma CalOverwrites(ps: People, x: Id)
    requires Plain(ps) && x in ps && ps[x].firstName != "Cal"
    ensures PeopleOk(ps)
    ensures Synced(ps, NO_ROLE_STORE, CalTakes(x), ps[x := AsCal(ps[x])], NO_ROLE_STORE, [CalEntry(ps[x])])
  {
    CalAlone(x);
    CalReport(ps, x);
    hide ReportOk, RoleNames, Overlay;
    var ro, after := CalTakes(x), ps[x := AsCal(ps[x])];
    forall id | id in ps ensures id in after && after[id] == Final(ro, ps[id]) {
      assert Listed(ro, ps[id]) <==> id == x;
    }
    assert after[x].bsaId == "" && ps[x].bsaId == "";
    forall u ensures RoleNames(NO_ROLE_STORE, u) == RolesFor(ps, NO_ROLE_STORE, ro, ro.members.Keys, u) {
      OwnerOwns(ps, u);
    }
  }

  /** Two syncs with one and the same roster: the first overwrites one person, the second the other. */
  lemma SecondSyncOverwritesAnother()
    ensures var ps, once := map[1 := ANN, 2 := BOB], map[1 := AsCal(ANN), 2 := BOB];
            var twice := map[1 := AsCal(ANN), 2 := AsCal(BOB)];
            && PeopleOk(ps) && CalTakes(2) == CalTakes(1).(pick := Some(2)) && twice != once
            && Synced(ps, NO_ROLE_STORE, CalTakes(1), once, NO_ROLE_STORE, [CalEntry(ANN)])
            && Synced(once, NO_ROLE_STORE, CalTakes(2), twice, NO_ROLE_STORE, [CalEntry(BOB)])
  {
    hide Synced, PeopleOk;
    var ps, once := map[1 := ANN, 2 := BOB], map[1 := AsCal(ANN), 2 := BOB];
    NamesDiffer();
    CalOverwrites(ps, 1);
    assert ps[1 := AsCal(ANN)] == once;
    CalOverwrites(once, 2);
    assert once[2 := AsCal(BOB)] == map[1 := AsCal(ANN), 2 := AsCal(BOB)];
    assert once[2] != AsCal(BOB);
  }

  lemma NamesDiffer()
    ensures ANN.firstName != "Cal" && BOB.firstName != "Cal" && ANN.firstName != BOB.firstName
  {
    assert "Ann"[0] != "Cal"[0] && "Bob"[0] != "Cal"[0] && "Ann"[0] != "Bob"[0];
  }

  /** The revert of what a sync did to Ann, asked of the service, may turn Bob into Ann and leave Ann as she is. */
  lemma RevertTakesAnother()
    ensures var ps, once := map[1 := ANN, 2 := BOB], map[1 := AsCal(ANN), 2 := BOB];
            var r := CalEntry(ANN);
            && PeopleOk(ps) && Synced(ps, NO_ROLE_STORE, CalTakes(1), once, NO_ROLE_STORE, [r]) && r.profileId == 1
            && Undone(once, NO_ROLE_STORE, r, map[1 := AsCal(ANN), 2 := BOB.(firstName := "Ann")], NO_ROLE_STORE)
  {
    hide Synced, PeopleOk;
    SecondSyncOverwritesAnother();
    var once, r := map[1 := AsCal(ANN), 2 := BOB], CalEntry(ANN);
    var wrong := map[1 := AsCal(ANN), 2 := BOB.(firstName := "Ann")];
    assert Restore(BOB, SnapshotOf(ANN)) == BOB.(firstName := "Ann");
    assert once[2 := Restore(BOB, SnapshotOf(ANN))] == wrong;
    assert RevertStep(once, NO_ROLE_STORE, 2, r.before.value, Names(r.rolesAdded), Names(r.rolesRemoved), wrong,
                      NO_ROLE_STORE);
  }
}
