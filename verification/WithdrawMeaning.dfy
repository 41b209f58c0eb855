/** What a withdrawal takes away, row by row, and that it takes nothing from anybody else. */
module WithdrawMeaning {
  import opened Common
  import opened Calendar
  import opened Profiles
  import opened Groups
  import opened StoreSpec
  import opened ServiceSpec
  import opened Logistics
  import opened TableRefinement
  import PI = PatrolInvariants
  import DI = DutyInvariants

  // ----- Clearing the cook touches one row -----

  lemma {:induction false} FlaggedMember(ms: seq<Member<bool>>, q: Id) returns (a: nat)
    requires Count(ms, q) > 0 && FlagOf(ms, q)
    ensures a < |ms| && ms[a] == Member(q, true)
  {
    if ms[0].profile == q {
      a := 0;
    } else {
      a := FlaggedMember(ms[1..], q);
      a := a + 1;
    }
  }

  /** A flagged row stands for a flagged member. */
  lemma FlaggedRow(m: map<Id, seq<CookingPatrol>>, x: Id, q: Id, g: Id) returns (h: nat)
    requires (x, q) in RowsOf(m) && RowsOf(m)[(x, q)] == (g, true)
    ensures x in m && h < |m[x]| && m[x][h].id == g && Member(q, true) in m[x][h].members
  {
    RowsMatch(m, x, q);
    var gs := ListOf(m, x);
    TableHolds(gs, q);
    h := Home(gs, q);
    var a := FlaggedMember(gs[h].members, q);
  }

  lemma OneCookOnly(g: CookingPatrol, p: Id, q: Id)
    requires PI.OneCook(g) && Member(p, true) in g.members && Member(q, true) in g.members
    ensures p == q
  {
    var a :| 0 <= a < |g.members| && g.members[a] == Member(p, true);
    var b :| 0 <= b < |g.members| && g.members[b] == Member(q, true);
    assert a < b || b < a || a == b;
  }

  lemma PatrolAt(profiles: map<Id, Profile>, s: Store, e: Id, i: nat, x: Id, h: nat)
    requires ListsOk(profiles, s) && e in s.patrols && x in s.patrols && i < |s.patrols[e]| && h < |s.patrols[x]|
    ensures s.patrols[e][i].id == s.patrols[x][h].id ==> e == x && i == h
    ensures PI.OneCook(s.patrols[x][h])
  {
    assert PI.PatrolsOk(profiles, s.patrols[x]);
  }

  /** The cook of a patrol is the only profile, over all events, with a flagged row for it. */
  lemma OnlyCook(profiles: map<Id, Profile>, s: Store, e: Id, i: nat, p: Id, x: Id, q: Id)
    requires ListsOk(profiles, s) && i < |ListOf(s.patrols, e)| && HoldsCook(ListOf(s.patrols, e)[i], p)
    requires (x, q) in RowsOf(s.patrols) && RowsOf(s.patrols)[(x, q)] == (ListOf(s.patrols, e)[i].id, true)
    ensures x == e && q == p
  {
    var h := FlaggedRow(s.patrols, x, q, ListOf(s.patrols, e)[i].id);
    hide ListsOk, RowsOf;
    PatrolAt(profiles, s, e, i, x, h);
    OneCookOnly(s.patrols[x][h], p, q);
  }

  /** Only the profile's own row may have lost its flag. */
  ghost predicate Unflagged(rows0: Rows<bool>, rows: Rows<bool>, e: Id, p: Id) {
    && rows.Keys == rows0.Keys
    && (forall k | k in rows && k != (e, p) :: rows[k] == rows0[k])
  }

  lemma ClearOwn(profiles: map<Id, Profile>, s: Store, e: Id, i: nat, p: Id, rows: Rows<bool>)
    requires ListsOk(profiles, s) && i < |ListOf(s.patrols, e)| && HoldsCook(ListOf(s.patrols, e)[i], p)
    requires Unflagged(RowsOf(s.patrols), rows, e, p)
    ensures Unflagged(RowsOf(s.patrols), ClearCooks(rows, ListOf(s.patrols, e)[i].id), e, p)
  {
    hide RowsOf, ListsOk, HoldsCook;
    var g := ListOf(s.patrols, e)[i].id;
    forall k | k in rows && k != (e, p) ensures ClearCooks(rows, g)[k] == rows[k] {
      if rows[k] == (g, true) {
        assert k == (k.0, k.1) && RowsOf(s.patrols)[k] == rows[k];
        OnlyCook(profiles, s, e, i, p, k.0, k.1);
      } else {
        ClearedRow(rows, g, k);
      }
    }
  }

  lemma ClearedRow(rows: Rows<bool>, g: Id, k: (Id, Id))
    requires k in rows && rows[k] != (g, true)
    ensures ClearCooks(rows, g)[k] == rows[k]
  {
    var row := rows[k];
    var (group, cook) := row;
    assert row == (group, cook);
    if group == g {
      assert cook == false;
      assert row == (g, false);
    }
  }

  lemma NothingUnflagged(rows: Rows<bool>, e: Id, p: Id)
    ensures Unflagged(rows, rows, e, p)
  {
  }

  lemma {:induction false} CooksCleared(profiles: map<Id, Profile>, s: Store, leaving: Option<(Id, Id)>, e: Id, n: nat,
                                        p: Id)
    requires Safe(profiles, s, leaving) && n <= |ListOf(s.patrols, e)|
    ensures Unflagged(RowsOf(s.patrols), RowsOf(ClearCooksHeld(s, ListOf(s.patrols, e)[..n], p).patrols), e, p)
  {
    hide Safe, RowsOf, Unflagged, HoldsCook, ClearCooks;
    var listed := ListOf(s.patrols, e)[..n];
    if n == 0 {
      NothingUnflagged(RowsOf(s.patrols), e, p);
    } else {
      CooksCleared(profiles, s, leaving, e, n - 1, p);
      assert listed[..n - 1] == ListOf(s.patrols, e)[..n - 1] && listed[n - 1] == ListOf(s.patrols, e)[n - 1];
      if HoldsCook(listed[n - 1], p) {
        var mid := ClearCooksHeld(s, listed[..n - 1], p);
        ClearCooksHeldSafe(profiles, s, leaving, listed[..n - 1], p);
        ListsOf(profiles, s, leaving);
        ListsOf(profiles, mid, leaving);
        ClearCookRefines(profiles, mid, listed[n - 1].id);
        ClearOwn(profiles, s, e, n - 1, p, RowsOf(mid.patrols));
      }
    }
  }

  /** Leaving the patrol deletes the profile's row and leaves every other row of every event as it is. */
  lemma LeavePatrolDeletes(profiles: map<Id, Profile>, s: Store, leaving: Option<(Id, Id)>, e: Id, p: Id)
    requires Safe(profiles, s, leaving) && e in s.events
    ensures RowsOf(LeavePatrol(s, e, p).0.patrols) == DeleteAt(RowsOf(s.patrols), e, p)
  {
    var gs := ListOf(s.patrols, e);
    var cleared := ClearCooksHeld(s, gs, p);
    assert gs[..|gs|] == gs;
    CooksCleared(profiles, s, leaving, e, |gs|, p);
    ClearCooksHeldSafe(profiles, s, leaving, gs, p);
    RemovePatrolMemberRefines(profiles, cleared, e, p);
    SameAfterDelete(RowsOf(s.patrols), RowsOf(cleared.patrols), e, p);
  }

  lemma SameAfterDelete(rows0: Rows<bool>, rows: Rows<bool>, e: Id, p: Id)
    requires Unflagged(rows0, rows, e, p)
    ensures DeleteAt(rows, e, p) == DeleteAt(rows0, e, p)
  {
  }

  // ----- The whole withdrawal -----

  lemma WithdrawRemoves(s: Store, e: Id, p: Id)
    requires e in s.events && Distinct(ListOf(s.attendees, e))
    ensures var s' := Withdraw(s, e, p).0;
            && s' == s.(attendees := s'.attendees, withdrawn := s'.withdrawn)
            && (forall x, q :: HasSignedUp(s', x, q) <==> HasSignedUp(s, x, q))
            && (forall x | x != e :: ListOf(s'.attendees, x) == ListOf(s.attendees, x))
            && (forall q :: q in ListOf(s'.attendees, e) <==> q in ListOf(s.attendees, e) && q != p)
  {
    var people := ListOf(s.attendees, e);
    if p in people {
      DI.WithoutDistinct(people, p);
      forall q | q != p ensures q in Without(people, p) <==> q in people {
        DI.WithoutOthers(people, p, q);
      }
    }
  }

  lemma DutyElsewhere(s: Store, e: Id, p: Id, r: Responsibility, x: Id)
    requires x != e
    ensures ListOf(RemoveResponsibility(s, e, p, r).duties, x) == ListOf(s.duties, x)
  {
  }

  lemma DutiesOfOthers(s: Store, e: Id, p: Id, x: Id)
    requires x != e
    ensures ListOf(DropDuties(s, e, p).duties, x) == ListOf(s.duties, x)
  {
    hide RemoveResponsibility, ListOf;
    var s0 := RemoveDriver(s, e, p);
    var s1 := RemoveResponsibility(s0, e, p, SPL);
    var s2 := RemoveResponsibility(s1, e, p, Coordinator);
    var s3 := RemoveResponsibility(s2, e, p, MedicalOfficer);
    DutyElsewhere(s, e, p, Driver, x);
    DutyElsewhere(s0, e, p, SPL, x);
    DutyElsewhere(s1, e, p, Coordinator, x);
    DutyElsewhere(s2, e, p, MedicalOfficer, x);
    DutyElsewhere(s3, e, p, Driver, x);
  }

  /** A withdrawal of a known profile from an event removes the attendee, that profile's fixed responsibilities, its
      tent row and its patrol row. Every other attendee, responsibility and row stays, in this event and all others, and
      everybody who has signed up still counts as having signed up. */
  lemma WithdrawalTakes(profiles: map<Id, Profile>, s: Store, e: Id, p: Id)
    requires Safe(profiles, s, None) && e in s.events && p in profiles
    ensures var s' := HandleWithdraw(profiles, s, e, p);
            && s'.events == s.events && (forall x, q :: HasSignedUp(s', x, q) <==> HasSignedUp(s, x, q))
            && (forall q :: q in ListOf(s'.attendees, e) <==> q in ListOf(s.attendees, e) && q != p)
            && (forall b :: b in ListOf(s'.duties, e) <==>
                  b in ListOf(s.duties, e) && (b.profile == p ==> b.responsibility.Other?))
            && (forall x | x != e :: ListOf(s'.attendees, x) == ListOf(s.attendees, x)
                                  && ListOf(s'.duties, x) == ListOf(s.duties, x))
            && RowsOf(s'.tents) == DeleteAt(RowsOf(s.tents), e, p)
            && RowsOf(s'.patrols) == DeleteAt(RowsOf(s.patrols), e, p)
  {
    hide Safe, RowsOf, DeleteAt, Withdraw, DropDuties, LeavePatrol, RemoveTentMember, Distinct;
    var leaving := Some((e, p));
    AttendeesDistinct(profiles, s, e);
    WithdrawSafe(profiles, s, e, p);
    WithdrawRemoves(s, e, p);
    var s1 := Withdraw(s, e, p).0;
    DropDutiesSafe(profiles, s1, leaving, e, p);
    var s2 := DropDuties(s1, e, p);
    forall x | x != e ensures ListOf(s2.duties, x) == ListOf(s.duties, x) {
      DutiesOfOthers(s1, e, p, x);
    }
    LeavePatrolSafe(profiles, s2, leaving, e, p);
    LeavePatrolDeletes(profiles, s2, leaving, e, p);
    var s3 := LeavePatrol(s2, e, p).0;
    ListsOf(profiles, s3, leaving);
    RemoveTentMemberRefines(profiles, s3, e, p);
  }

  lemma AttendeesDistinct(profiles: map<Id, Profile>, s: Store, e: Id)
    requires Safe(profiles, s, None)
    ensures Distinct(ListOf(s.attendees, e))
  {
  }

  lemma ListsOf(profiles: map<Id, Profile>, s: Store, leaving: Option<(Id, Id)>)
    requires Safe(profiles, s, leaving)
    ensures ListsOk(profiles, s)
  {
  }

  // ----- Drivers -----

  ghost predicate DriversAttend(s: Store, e: Id) {
    forall a | a in ListOf(s.duties, e) && a.responsibility == Driver :: a.profile in ListOf(s.attendees, e)
  }

  /** Adding a driver breaks the attendance of drivers if and only if the new one has signed up for the event at some
      time and does not attend it now. */
  lemma AddDriverIff(s: Store, e: Id, p: Id)
    requires e in s.events && DriversAttend(s, e)
    ensures !DriversAttend(AddDriver(s, e, p).0, e) <==> HasSignedUp(s, e, p) && p !in ListOf(s.attendees, e)
  {
    var ds := ListOf(s.duties, e);
    if Assignment(p, Driver) !in ds {
      assert (ds + [Assignment(p, Driver)])[|ds|] == Assignment(p, Driver);
    }
  }

  const DAY_TRIP := EventInfo(Instant(Date(2024, 6, 1), 0), false)

  lemma SignedUpAndGone(profiles: map<Id, Profile>, s: Store, p: Id)
    requires p in profiles
    requires s == Store(map[1 := DAY_TRIP], map[1 := [p]], map[], map[], map[], map[])
    ensures HandleWithdraw(profiles, s, 1, p) ==
            Store(map[1 := DAY_TRIP], map[1 := []], map[1 := [p]], map[], map[], map[])
  {
    var gone := Store(map[1 := DAY_TRIP], map[1 := []], map[1 := [p]], map[], map[], map[]);
    var nobody: seq<Id> := [];
    assert Without([p], p) == nobody && nobody + [p] == [p];
    assert Withdraw(s, 1, p).0 == gone;
    assert DropDuties(gone, 1, p) == gone;
    assert LeavePatrol(gone, 1, p).0 == gone;
  }

  lemma OneMoreRequest(profiles: map<Id, Profile>, w: World, ops: seq<Op>, n: nat)
    requires n < |ops|
    ensures Run(profiles, w, ops[..n + 1]) == Next(profiles, Run(profiles, w, ops[..n]), ops[n])
    ensures ProperRun(profiles, w, ops[..n + 1]) <==>
              ProperRun(profiles, w, ops[..n]) && DrawsFresh(Run(profiles, w, ops[..n]), ops[n])
  {
    assert ops[..n + 1][..n] == ops[..n];
  }

  /** And that does happen: whoever signs up and withdraws can be added as a driver. */
  lemma WithdrawnDriver(profiles: map<Id, Profile>, connections: seq<Connection>, gap: int, p: Id)
    requires p in profiles
    ensures var ops := [CreateEventOp(1, DAY_TRIP, None, 2), SignUpOp(1, p, false, 2), WithdrawOp(1, p),
                        AddDriverOp(1, p)];
            var w := EmptyWorld(connections, gap);
            && ProperRun(profiles, w, ops) && DriversAttend(Run(profiles, w, ops[..3]).store, 1)
            && !DriversAttend(Run(profiles, w, ops).store, 1)
  {
    hide Run, ProperRun, HandleWithdraw;
    var ops := [CreateEventOp(1, DAY_TRIP, None, 2), SignUpOp(1, p, false, 2), WithdrawOp(1, p), AddDriverOp(1, p)];
    var w := EmptyWorld(connections, gap);
    NoRequest(profiles, w, ops[..0]);
    OneMoreRequest(profiles, w, ops, 0);
    OneMoreRequest(profiles, w, ops, 1);
    OneMoreRequest(profiles, w, ops, 2);
    OneMoreRequest(profiles, w, ops, 3);
    var nobody: seq<Id> := [];
    assert ops[..4] == ops && nobody + [p] == [p];
    var signed := Store(map[1 := DAY_TRIP], map[1 := [p]], map[], map[], map[], map[]);
    assert Run(profiles, w, ops[..2]).store == signed;
    SignedUpAndGone(profiles, signed, p);
    AddDriverIff(Run(profiles, w, ops[..3]).store, 1, p);
  }

  lemma NoRequest(profiles: map<Id, Profile>, w: World, ops: seq<Op>)
    requires ops == []
    ensures Run(profiles, w, ops) == w && ProperRun(profiles, w, ops)
  {
  }

  /** A withdrawal takes no driver's attendance away without taking the driver. */
  lemma WithdrawalKeepsDrivers(profiles: map<Id, Profile>, s: Store, e: Id, p: Id)
    requires Safe(profiles, s, None) && e in s.events && p in profiles && DriversAttend(s, e)
    ensures DriversAttend(HandleWithdraw(profiles, s, e, p), e)
  {
    hide Safe, HandleWithdraw, RowsOf;
    WithdrawalTakes(profiles, s, e, p);
  }
}
