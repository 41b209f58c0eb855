/** The invariant of all runs in so many words, and what every request achieves. */
module RunMeaning {
  import opened Common
  import opened Profiles
  import opened Names
  import opened Groups
  import opened GroupInvariants
  import opened StoreSpec
  import opened ServiceSpec
  import opened Logistics
  import opened TableRefinement
  import opened StoreMeaning
  import opened AssignmentMeaning
  import opened DutyMeaning
  import opened TentRuns
  import opened RequestMeaning
  import opened WithdrawMeaning
  import PI = PatrolInvariants
  import TI = TentInvariants

  // ----- After every run -----

  /** Tents: whoever is in one attends and is a youth, nobody has two places, and no two tents share a name. */
  ghost predicate TentsInWords(profiles: map<Id, Profile>, s: Store, e: Id) {
    var gs := ListOf(s.tents, e);
    && (forall i, a | 0 <= i < |gs| && 0 <= a < |gs[i].members| ::
          var p := gs[i].members[a].profile;
          p in ListOf(s.attendees, e) && p in profiles && profiles[p].memberType == Youth)
    && (forall i, a, j, b | 0 <= i < |gs| && 0 <= a < |gs[i].members| && 0 <= j < |gs| && 0 <= b < |gs[j].members|
                            && gs[i].members[a].profile == gs[j].members[b].profile :: i == j && a == b)
    && (forall i, j | 0 <= i < j < |gs| :: gs[i].name != gs[j].name && gs[i].id != gs[j].id)
  }

  /** Patrols: none without cooking. Whoever is in one attends, adults are in that of the adults only, which is one at
      most. Nobody has two places, no patrol has two cooks, and no two share a name. */
  ghost predicate PatrolsInWords(profiles: map<Id, Profile>, s: Store, e: Id)
    requires e in s.events
  {
    var gs := ListOf(s.patrols, e);
    && (!s.events[e].cooking ==> gs == [])
    && (forall i, a | 0 <= i < |gs| && 0 <= a < |gs[i].members| ::
          var p := gs[i].members[a].profile;
          p in ListOf(s.attendees, e) && (p in profiles && profiles[p].memberType == Adult ==> gs[i].kind))
    && (forall i, a, j, b | 0 <= i < |gs| && 0 <= a < |gs[i].members| && 0 <= j < |gs| && 0 <= b < |gs[j].members|
                            && gs[i].members[a].profile == gs[j].members[b].profile :: i == j && a == b)
    && (forall i, a, b | 0 <= i < |gs| && 0 <= a < b < |gs[i].members| ::
          !(gs[i].members[a].flag && gs[i].members[b].flag))
    && (forall i, j | 0 <= i < j < |gs| :: !(gs[i].kind && gs[j].kind))
    && (forall i, j | 0 <= i < j < |gs| :: gs[i].name != gs[j].name && gs[i].id != gs[j].id)
  }

  lemma OnePlace<K, F>(gs: seq<Group<K, F>>, i: nat, a: nat, j: nat, b: nat)
    requires Exclusive(gs) && i < |gs| && a < |gs[i].members| && j < |gs| && b < |gs[j].members|
    requires gs[i].members[a].profile == gs[j].members[b].profile
    ensures i == j && a == b
  {
    var p := gs[i].members[a].profile;
    CountPositive(gs[i].members, p);
    CountPositive(gs[j].members, p);
    assert Has(gs[i], p) && Has(gs[j], p);
    if i == j && a != b {
      CountTwo(gs[i].members, if a < b then a else b, if a < b then b else a);
    }
  }

  lemma TentsSafe(profiles: map<Id, Profile>, s: Store, e: Id)
    requires Safe(profiles, s, None) && e in s.events
    ensures TentsInWords(profiles, s, e)
  {
    var gs := ListOf(s.tents, e);
    UniqueIdsLocal(s.tents, e);
    assert AttendanceAt(s, e, None);
    assert e in s.tents ==> TI.TentsOk(profiles, gs);
    forall i, a, j, b | 0 <= i < |gs| && 0 <= a < |gs[i].members| && 0 <= j < |gs| && 0 <= b < |gs[j].members|
                        && gs[i].members[a].profile == gs[j].members[b].profile
      ensures i == j && a == b
    {
      hide Exclusive;
      OnePlace(gs, i, a, j, b);
    }
    forall i | 0 <= i < |gs| ensures TI.AllYouths(profiles, gs[i]) {
    }
  }

  lemma PatrolsSafe(profiles: map<Id, Profile>, s: Store, e: Id)
    requires Safe(profiles, s, None) && e in s.events
    ensures PatrolsInWords(profiles, s, e)
  {
    var gs := ListOf(s.patrols, e);
    UniqueIdsLocal(s.patrols, e);
    assert AttendanceAt(s, e, None) && GateAt(s, e);
    assert e in s.patrols ==> PI.PatrolsOk(profiles, gs);
    forall i, a, j, b | 0 <= i < |gs| && 0 <= a < |gs[i].members| && 0 <= j < |gs| && 0 <= b < |gs[j].members|
                        && gs[i].members[a].profile == gs[j].members[b].profile
      ensures i == j && a == b
    {
      hide Exclusive;
      OnePlace(gs, i, a, j, b);
    }
    forall i | 0 <= i < |gs| ensures PI.OneCook(gs[i]) && PI.AdultsOnlyInAdultPatrol(profiles, gs[i]) {
    }
  }

  lemma RunsInWords(profiles: map<Id, Profile>, connections: seq<Connection>, gap: int, ops: seq<Op>, e: Id)
    requires ProperRun(profiles, EmptyWorld(connections, gap), ops)
    requires e in Run(profiles, EmptyWorld(connections, gap), ops).store.events
    ensures var s := Run(profiles, EmptyWorld(connections, gap), ops).store;
            TentsInWords(profiles, s, e) && PatrolsInWords(profiles, s, e)
  {
    hide Safe, TentsInWords, PatrolsInWords;
    RunsAreSafe(profiles, connections, gap, ops);
    var s := Run(profiles, EmptyWorld(connections, gap), ops).store;
    TentsSafe(profiles, s, e);
    PatrolsSafe(profiles, s, e);
  }

  // ----- What every request achieves -----

  /** The profile has a place in the group of the event. */
  ghost predicate SitsIn<F>(rows: Rows<F>, e: Id, p: Id, g: Id) {
    (e, p) in rows && rows[(e, p)].0 == g
  }

  lemma TentEffects(profiles: map<Id, Profile>, w: World, op: Op)
    requires Safe(profiles, w.store, None)
    ensures var s, s' := w.store, Next(profiles, w, op).store;
            match op
            case CreateTentOp(e, t) => e in s.events ==> OneMore(ListOf(s.tents, e), ListOf(s'.tents, e), "Tent ", t)
            case DeleteTentOp(t) => forall e :: ListOf(s'.tents, e) == Others(ListOf(s.tents, e), t)
            case AssignTentOp(e, t, p) =>
              AssignToTent(profiles, w.connections, s, e, t, p, w.maxAgeGap).1 == Accepted ==>
                SitsIn(RowsOf(s'.tents), e, p, t)
            case RemoveTentMemberOp(e, p) => (e, p) !in RowsOf(s'.tents)
            case _ => true
  {
    hide Safe, RowsOf, OneMore, Others;
    var s := w.store;
    TentListsOk(profiles, s, 0);
    match op
    case CreateTentOp(e, t) => CreateTentMeaning(s, e, t);
    case DeleteTentOp(t) => DeleteTentMeaning(profiles, s, t);
    case AssignTentOp(e, t, p) => TentAssignmentMeaning(profiles, w.connections, s, e, t, p, w.maxAgeGap);
    case RemoveTentMemberOp(e, p) => RemoveTentMemberRefines(profiles, s, e, p);
    case _ =>
  }

  lemma PatrolEffects(profiles: map<Id, Profile>, w: World, op: Op)
    requires Safe(profiles, w.store, None)
    ensures var s, s' := w.store, Next(profiles, w, op).store;
            match op
            case CreatePatrolOp(e, g) =>
              if CookingOpen(s, e) then OneMore(ListOf(s.patrols, e), ListOf(s'.patrols, e), "Cooking ", g) else s' == s
            case DeletePatrolOp(e, g) =>
              if CookingOpen(s, e) then forall x :: ListOf(s'.patrols, x) == Others(ListOf(s.patrols, x), g)
              else s' == s
            case AssignPatrolOp(e, g, p) =>
              CookingOpen(s, e) && AssignToPatrol(profiles, s, e, g, p).1 == Done ==>
                SitsIn(RowsOf(s'.patrols), e, p, g)
            case RemovePatrolMemberOp(e, p) => if CookingOpen(s, e) then (e, p) !in RowsOf(s'.patrols) else s' == s
            case SetCookOp(e, g, p) =>
              CookingOpen(s, e) && SitsIn(RowsOf(s.patrols), e, p, g) ==>
                (e, p) in RowsOf(s'.patrols) && RowsOf(s'.patrols)[(e, p)] == (g, true)
            case ClearCookOp(e, g) =>
              CookingOpen(s, e) ==> forall k | k in RowsOf(s'.patrols) :: RowsOf(s'.patrols)[k] != (g, true)
            case _ => true
  {
    hide Safe, RowsOf, OneMore, Others;
    var s := w.store;
    TentListsOk(profiles, s, 0);
    match op
    case CreatePatrolOp(e, g) => CreatePatrolMeaning(s, e, false, g);
    case DeletePatrolOp(e, g) => DeletePatrolMeaning(profiles, s, g);
    case AssignPatrolOp(e, g, p) => PatrolAssignmentMeaning(profiles, s, e, g, p);
    case RemovePatrolMemberOp(e, p) => if CookingOpen(s, e) { LeavePatrolDeletes(profiles, s, None, e, p); }
    case SetCookOp(e, g, p) => SetCookRefines(profiles, s, e, g, p);
    case ClearCookOp(e, g) => ClearCookRefines(profiles, s, g);
    case _ =>
  }

  lemma EventEffects(profiles: map<Id, Profile>, w: World, op: Op)
    requires Safe(profiles, w.store, None) && DrawsFresh(w, op)
    ensures var s, s' := w.store, Next(profiles, w, op).store;
            match op
            case CreateEventOp(e, info, _, _) => s'.events == s.events[e := info]
            case EditEventOp(e, info, _) => s'.events == if e in s.events then s.events[e := info] else s.events
            case DeleteEventOp(e) => s'.events == s.events - {e}
            case SignUpOp(e, p, _, _) => e in s.events && p in profiles ==> p in ListOf(s'.attendees, e)
            case WithdrawOp(e, p) => e in s.events && p in profiles ==> p !in ListOf(s'.attendees, e)
            case _ => true
  {
    hide Safe, AfterSignUp, DropDuties, LeavePatrol;
    var s := w.store;
    match op
    case CreateEventOp(e, info, creator, g) => HandleCreateTents(profiles, s, e, info, creator, g);
    case SignUpOp(e, p, leads, g) =>
      if e in s.events && p in profiles {
        SignUpMeaning(profiles, s, e, p, leads, g);
      }
    case WithdrawOp(e, p) => HandleWithdrawSafe(profiles, s, e, p);
    case _ =>
  }

  lemma DutyEffects(profiles: map<Id, Profile>, w: World, op: Op)
    requires Safe(profiles, w.store, None)
    ensures var s, s' := w.store, Next(profiles, w, op).store;
            match op
            case ToggleOp(e, p, r) =>
              e in s.events && p in ListOf(s.attendees, e) && r != Driver ==>
                (Assignment(p, r) in ListOf(s'.duties, e) <==> Assignment(p, r) !in ListOf(s.duties, e))
            case AddDriverOp(e, p) =>
              e in s.events && p in profiles && p in ListOf(s.attendees, e) ==>
                Assignment(p, Driver) in ListOf(s'.duties, e)
            case RemoveDriverOp(e, p) => Assignment(p, Driver) !in ListOf(s'.duties, e)
            case _ => true
  {
    hide Safe, HandleToggle, AddDriver, RemoveDriver;
    var s := w.store;
    match op
    case ToggleOp(e, p, r) =>
      if e in s.events && p in ListOf(s.attendees, e) && r != Driver {
        ToggleMeaning(profiles, s, e, p, r);
      }
    case AddDriverOp(e, p) => if e in s.events { AddDriverMeaning(s, e, p); }
    case RemoveDriverOp(e, p) => RemoveDriverMeaning(profiles, s, e, p);
    case _ =>
  }

  /** Connections and the age limit change by the requests for that and by no other. */
  lemma RuleEffects(profiles: map<Id, Profile>, w: World, op: Op)
    ensures var w' := Next(profiles, w, op);
            && (if op.SetAgeGapOp? then w'.maxAgeGap == op.maxAgeGap else w'.maxAgeGap == w.maxAgeGap)
            && (if op.AddConnectionOp? then w'.connections == w.connections + [op.connection]
                else |w'.connections| == |w.connections| && forall i | 0 <= i < |w.connections| ::
                  w'.connections[i] == (if op.SetStatusOp? && op.index == i
                                        then Connection(w.connections[i].link, op.status) else w.connections[i]))
            && (op.AddConnectionOp? || op.SetStatusOp? || op.SetAgeGapOp? ==> w'.store == w.store)
  {
  }
}
