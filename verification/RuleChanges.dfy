/** The requests that change the rules of tenting, exactly when they keep every tent legal, and legality over runs. */
module RuleChanges {
  import opened Common
  import opened Calendar
  import opened TentRules
  import opened Profiles
  import opened Names
  import opened Groups
  import opened StoreSpec
  import opened ServiceSpec
  import opened Logistics
  import opened TentRuns
  import TI = TentInvariants

  // ----- What a change is checked against -----

  /** The two have places in one tent of the list. */
  ghost predicate ShareTent(gs: seq<Tent>, p: Id, q: Id) {
    exists i, a, b | 0 <= i < |gs| && 0 <= a < b < |gs[i].members| ::
      gs[i].members[a].profile == p && gs[i].members[b].profile == q
  }

  /** Two known scouts share a tent of the event. */
  ghost predicate Together(profiles: map<Id, Profile>, w: World, e: Id, p: Id, q: Id) {
    p in profiles && q in profiles && ShareTent(ListOf(w.store.tents, e), p, q)
  }

  function PairOf(a: Profile, b: Profile): ScoutPair {
    NormalizePair(a.id, b.id)
  }

  /** The ages of the two on the day the event starts differ by at most the limit. */
  predicate AgesFit(a: Profile, b: Profile, start: Instant, gap: int) {
    AgeDifference(OnDay(ScoutOf(a), start), OnDay(ScoutOf(b), start)) <= gap
  }

  /** All who share a tent of the event without being siblings are within the limit on the given day. */
  ghost predicate OthersFit(profiles: map<Id, Profile>, w: World, e: Id, start: Instant, gap: int) {
    forall p, q | Together(profiles, w, e, p, q) && PairOf(profiles[p], profiles[q]) !in SiblingsIn(w.connections) ::
      AgesFit(profiles[p], profiles[q], start, gap)
  }

  /** All who share a tent of the event and are among the given pairs are within the limit. */
  ghost predicate FormerFit(profiles: map<Id, Profile>, w: World, e: Id, former: set<ScoutPair>)
    requires e in w.store.events
  {
    forall p, q | Together(profiles, w, e, p, q) && PairOf(profiles[p], profiles[q]) in former ::
      AgesFit(profiles[p], profiles[q], w.store.events[e].start, w.maxAgeGap)
  }

  /** The pairs that are siblings no more once connection i has the status. */
  ghost function LostSiblings(connections: seq<Connection>, i: nat, status: LinkStatus): set<ScoutPair> {
    SiblingsIn(connections) - SiblingsIn(NextConnections(connections, SetStatusOp(i, status)))
  }

  /** What a request must be checked for to keep every tent legal; a new connection and all requests that leave the
      rules alone need no check. */
  ghost predicate FitsRules(profiles: map<Id, Profile>, w: World, op: Op) {
    match op
    case EditEventOp(e, info, _) => e in w.store.events ==> OthersFit(profiles, w, e, info.start, w.maxAgeGap)
    case SetAgeGapOp(gap) => forall e | e in w.store.events :: OthersFit(profiles, w, e, w.store.events[e].start, gap)
    case SetStatusOp(i, status) =>
      forall e | e in w.store.events :: FormerFit(profiles, w, e, LostSiblings(w.connections, i, status))
    case _ => true
  }

  /** All who share a tent of the list may do so. */
  ghost predicate PairsFit(profiles: map<Id, Profile>, gs: seq<Tent>, start: Instant, gap: int,
                           siblings: set<ScoutPair>) {
    forall p, q | p in profiles && q in profiles && ShareTent(gs, p, q) ::
      PairOf(profiles[p], profiles[q]) in siblings || AgesFit(profiles[p], profiles[q], start, gap)
  }

  lemma LegalPairsFit(profiles: map<Id, Profile>, gs: seq<Tent>, start: Instant, gap: int, siblings: set<ScoutPair>)
    requires TI.LegalTents(profiles, start, gap, siblings, gs)
    ensures PairsFit(profiles, gs, start, gap, siblings)
  {
    forall p, q | p in profiles && q in profiles && ShareTent(gs, p, q)
      ensures PairOf(profiles[p], profiles[q]) in siblings || AgesFit(profiles[p], profiles[q], start, gap)
    {
      var i, a, b :| 0 <= i < |gs| && 0 <= a < b < |gs[i].members|
        && gs[i].members[a].profile == p && gs[i].members[b].profile == q;
      assert TI.LegalTent(profiles, start, gap, siblings, gs[i]);
      var campers := Campers(ScoutsOf(profiles, gs[i].members), start);
      assert MayShare(campers[a], campers[b], gap, siblings);
    }
  }

  lemma PairsMayShare(profiles: map<Id, Profile>, gs: seq<Tent>, start: Instant, gap: int, siblings: set<ScoutPair>,
                      i: nat)
    requires i < |gs| && AllKnown(profiles, gs[i].members) && PairsFit(profiles, gs, start, gap, siblings)
    ensures AllMayShare(Campers(ScoutsOf(profiles, gs[i].members), start), gap, siblings)
  {
    var ms := gs[i].members;
    var campers := Campers(ScoutsOf(profiles, ms), start);
    forall a, b | 0 <= a < b < |campers| ensures MayShare(campers[a], campers[b], gap, siblings) {
      assert ShareTent(gs, ms[a].profile, ms[b].profile);
    }
  }

  /** The gender rule has nothing to do with the rules that can change. */
  lemma LegalUnderNewRules(profiles: map<Id, Profile>, g: Tent, start: Instant, gap: int, siblings: set<ScoutPair>,
                           start': Instant, gap': int, siblings': set<ScoutPair>)
    requires TI.LegalTent(profiles, start, gap, siblings, g)
    ensures TI.LegalTent(profiles, start', gap', siblings', g) <==>
              AllMayShare(Campers(ScoutsOf(profiles, g.members), start'), gap', siblings')
  {
    var before, after := Campers(ScoutsOf(profiles, g.members), start), Campers(ScoutsOf(profiles, g.members), start');
    assert forall i | 0 <= i < |g.members| :: before[i].gender == after[i].gender;
  }

  lemma TentsUnderNewRules(profiles: map<Id, Profile>, gs: seq<Tent>, start: Instant, gap: int,
                           siblings: set<ScoutPair>, start': Instant, gap': int, siblings': set<ScoutPair>)
    requires TI.LegalTents(profiles, start, gap, siblings, gs)
    ensures TI.LegalTents(profiles, start', gap', siblings', gs) <==> PairsFit(profiles, gs, start', gap', siblings')
  {
    hide PairsFit, AllMayShare;
    if PairsFit(profiles, gs, start', gap', siblings') {
      forall i | 0 <= i < |gs| ensures TI.LegalTent(profiles, start', gap', siblings', gs[i]) {
        LegalUnderNewRules(profiles, gs[i], start, gap, siblings, start', gap', siblings');
        PairsMayShare(profiles, gs, start', gap', siblings', i);
      }
    }
    if TI.LegalTents(profiles, start', gap', siblings', gs) {
      LegalPairsFit(profiles, gs, start', gap', siblings');
    }
  }

  /** What a request that may change the rules does to events, tents and rules. */
  lemma NewRules(profiles: map<Id, Profile>, w: World, op: Op)
    requires ChangesRules(op)
    ensures var after := Next(profiles, w, op);
            && after.store.tents == w.store.tents
            && after.store.events == (if op.EditEventOp? && op.event in w.store.events
                                      then w.store.events[op.event := op.info] else w.store.events)
            && after.connections == NextConnections(w.connections, op)
            && after.maxAgeGap == if op.SetAgeGapOp? then op.maxAgeGap else w.maxAgeGap
  {
  }

  ghost predicate EventFits(profiles: map<Id, Profile>, w: World, after: World, e: Id)
    requires e in after.store.events
  {
    PairsFit(profiles, ListOf(w.store.tents, e), after.store.events[e].start, after.maxAgeGap,
             SiblingsIn(after.connections))
  }

  /** Before the request all who share a tent fit, and whether they do after it decides about legality. */
  lemma FitDecides(profiles: map<Id, Profile>, w: World, op: Op)
    requires TentsLegal(profiles, w) && ChangesRules(op)
    ensures forall e | e in w.store.events :: EventFits(profiles, w, w, e)
    ensures var after := Next(profiles, w, op);
            after.store.events.Keys == w.store.events.Keys
            && (TentsLegal(profiles, after) <==> forall e | e in after.store.events :: EventFits(profiles, w, after, e))
  {
    var after := Next(profiles, w, op);
    NewRules(profiles, w, op);
    hide Next, PairsFit, TI.LegalTents;
    var gap, siblings := w.maxAgeGap, SiblingsIn(w.connections);
    forall e | e in w.store.events
      ensures e in after.store.events.Keys && EventFits(profiles, w, w, e)
      ensures TentsLegalAt(profiles, after, e) <==> EventFits(profiles, w, after, e)
    {
      assert e in w.store.events.Keys && TentsLegalAt(profiles, w, e);
      var gs, start := ListOf(w.store.tents, e), w.store.events[e].start;
      LegalPairsFit(profiles, gs, start, gap, siblings);
      TentsUnderNewRules(profiles, gs, start, gap, siblings,
                         after.store.events[e].start, after.maxAgeGap, SiblingsIn(after.connections));
    }
    assert after.store.events.Keys == w.store.events.Keys;
  }

  /** Siblings always fit. */
  lemma OthersDecide(profiles: map<Id, Profile>, w: World, e: Id, start: Instant, gap: int)
    ensures PairsFit(profiles, ListOf(w.store.tents, e), start, gap, SiblingsIn(w.connections)) <==>
              OthersFit(profiles, w, e, start, gap)
  {
    hide ShareTent, AgesFit, SiblingsIn;
    var gs := ListOf(w.store.tents, e);
    assert forall p, q :: Together(profiles, w, e, p, q) <==> p in profiles && q in profiles && ShareTent(gs, p, q);
  }

  /** And those who were no siblings before fit already. */
  lemma FormerDecide(profiles: map<Id, Profile>, w: World, e: Id, siblings: set<ScoutPair>)
    requires e in w.store.events && EventFits(profiles, w, w, e)
    ensures PairsFit(profiles, ListOf(w.store.tents, e), w.store.events[e].start, w.maxAgeGap, siblings) <==>
              FormerFit(profiles, w, e, SiblingsIn(w.connections) - siblings)
  {
    hide ShareTent, AgesFit, SiblingsIn;
    var gs := ListOf(w.store.tents, e);
    assert forall p, q :: Together(profiles, w, e, p, q) <==> p in profiles && q in profiles && ShareTent(gs, p, q);
  }

  lemma EditIff(profiles: map<Id, Profile>, w: World, e: Id, info: EventInfo, newId: Id)
    requires TentsLegal(profiles, w)
    ensures var op := EditEventOp(e, info, newId);
            TentsLegal(profiles, Next(profiles, w, op)) <==> FitsRules(profiles, w, op)
  {
    var op := EditEventOp(e, info, newId);
    var after := Next(profiles, w, op);
    FitDecides(profiles, w, op);
    NewRules(profiles, w, op);
    hide Next, TentsLegal, PairsFit, OthersFit, SiblingsIn;
    OthersDecide(profiles, w, e, info.start, w.maxAgeGap);
    if e in w.store.events {
      assert EventFits(profiles, w, after, e) <==> OthersFit(profiles, w, e, info.start, w.maxAgeGap);
    }
    forall x | x in after.store.events && (x != e || e !in w.store.events) ensures EventFits(profiles, w, after, x) {
      assert EventFits(profiles, w, w, x);
    }
  }

  lemma LimitIff(profiles: map<Id, Profile>, w: World, gap: int)
    requires TentsLegal(profiles, w)
    ensures TentsLegal(profiles, Next(profiles, w, SetAgeGapOp(gap))) <==> FitsRules(profiles, w, SetAgeGapOp(gap))
  {
    var after := Next(profiles, w, SetAgeGapOp(gap));
    FitDecides(profiles, w, SetAgeGapOp(gap));
    NewRules(profiles, w, SetAgeGapOp(gap));
    hide Next, TentsLegal, PairsFit, OthersFit, SiblingsIn;
    forall e | e in after.store.events
      ensures EventFits(profiles, w, after, e) <==> OthersFit(profiles, w, e, w.store.events[e].start, gap)
    {
      OthersDecide(profiles, w, e, w.store.events[e].start, gap);
    }
  }

  lemma StatusIff(profiles: map<Id, Profile>, w: World, i: nat, status: LinkStatus)
    requires TentsLegal(profiles, w)
    ensures var op := SetStatusOp(i, status);
            TentsLegal(profiles, Next(profiles, w, op)) <==> FitsRules(profiles, w, op)
  {
    var op := SetStatusOp(i, status);
    var after := Next(profiles, w, op);
    FitDecides(profiles, w, op);
    NewRules(profiles, w, op);
    hide Next, TentsLegal, PairsFit, FormerFit, SiblingsIn, NextConnections;
    forall e | e in after.store.events
      ensures EventFits(profiles, w, after, e) <==>
                FormerFit(profiles, w, e, LostSiblings(w.connections, i, status))
    {
      FormerDecide(profiles, w, e, SiblingsIn(after.connections));
    }
  }

  lemma NewConnectionKeepsLegal(profiles: map<Id, Profile>, w: World, connection: Connection)
    requires TentsLegal(profiles, w)
    ensures FitsRules(profiles, w, AddConnectionOp(connection))
    ensures TentsLegal(profiles, Next(profiles, w, AddConnectionOp(connection)))
  {
    var after := Next(profiles, w, AddConnectionOp(connection));
    TI.SiblingsGrow(w.connections, connection);
    forall e | e in after.store.events ensures TentsLegalAt(profiles, after, e) {
      assert TentsLegalAt(profiles, w, e);
      TI.MonotoneLegal(profiles, w.store.events[e].start, w.maxAgeGap, w.maxAgeGap, SiblingsIn(w.connections),
                       SiblingsIn(after.connections), ListOf(w.store.tents, e));
    }
  }

  lemma RuleChangeIff(profiles: map<Id, Profile>, w: World, op: Op)
    requires TentsLegal(profiles, w) && ChangesRules(op)
    ensures TentsLegal(profiles, Next(profiles, w, op)) <==> FitsRules(profiles, w, op)
  {
    hide TentsLegal, Next, FitsRules;
    match op
    case EditEventOp(e, info, newId) => EditIff(profiles, w, e, info, newId);
    case SetAgeGapOp(gap) => LimitIff(profiles, w, gap);
    case SetStatusOp(i, status) => StatusIff(profiles, w, i, status);
    case AddConnectionOp(connection) => NewConnectionKeepsLegal(profiles, w, connection);
  }

  /** A request keeps every tent legal if and only if: a new start fits those who share a tent of that event without
      being siblings, a new limit all who do so anywhere, and a new status those who are siblings no more. */
  lemma StepLegalIff(profiles: map<Id, Profile>, w: World, op: Op)
    requires TentsLegal(profiles, w) && Safe(profiles, w.store, None) && DrawsFresh(w, op)
    ensures TentsLegal(profiles, Next(profiles, w, op)) <==> FitsRules(profiles, w, op)
  {
    if ChangesRules(op) {
      RuleChangeIff(profiles, w, op);
    } else {
      PlainStepLegal(profiles, w, op);
    }
  }

  // ----- Which siblings a connection carries -----

  lemma {:induction false} ApprovedMember(connections: seq<Connection>, l: ParentLink)
    ensures l in ApprovedLinks(connections) <==> Connection(l, Approved) in connections
  {
    if connections != [] {
      var n := |connections| - 1;
      ApprovedMember(connections[..n], l);
      assert connections == connections[..n] + [connections[n]];
      assert connections[n] == Connection(connections[n].link, connections[n].status);
    }
  }

  /** Only an approved connection that gets another status costs anybody a sibling: two siblings who are none afterwards
      share its parent, and one of them is its scout. */
  lemma LostShareTheParent(connections: seq<Connection>, i: nat, status: LinkStatus, a: Id, b: Id)
    requires a != b && NormalizePair(a, b) in LostSiblings(connections, i, status)
    ensures i < |connections| && connections[i].status == Approved && status != Approved
    ensures var link := connections[i].link;
            && (a == link.youth || b == link.youth)
            && Connection(ParentLink(link.parent, a), Approved) in connections
            && Connection(ParentLink(link.parent, b), Approved) in connections
  {
    var after := NextConnections(connections, SetStatusOp(i, status));
    SiblingsShareAParent(ApprovedLinks(connections), a, b);
    var links := ApprovedLinks(connections);
    var parent :| ParentLink(parent, a) in links && ParentLink(parent, b) in links;
    ApprovedMember(connections, ParentLink(parent, a));
    ApprovedMember(connections, ParentLink(parent, b));
    SiblingsShareAParent(ApprovedLinks(after), a, b);
    ApprovedMember(after, ParentLink(parent, a));
    ApprovedMember(after, ParentLink(parent, b));
    StillApproved(connections, i, status, ParentLink(parent, a));
    StillApproved(connections, i, status, ParentLink(parent, b));
  }

  lemma StillApproved(connections: seq<Connection>, i: nat, status: LinkStatus, l: ParentLink)
    requires Connection(l, Approved) in connections
    ensures Connection(l, Approved) in NextConnections(connections, SetStatusOp(i, status)) ||
            (i < |connections| && status != Approved && connections[i] == Connection(l, Approved))
  {
    var after := NextConnections(connections, SetStatusOp(i, status));
    var k :| 0 <= k < |connections| && connections[k] == Connection(l, Approved);
    assert k < |after| && (after[k] == Connection(l, Approved) || k == i);
  }

  // ----- Changes that always fit -----

  /** Starts that stay, a limit that is not lowered and siblings who remain siblings always fit. */
  ghost predicate LoosensRules(profiles: map<Id, Profile>, w: World, op: Op) {
    var after := Next(profiles, w, op);
    && (forall e | e in after.store.events && e in w.store.events ::
          after.store.events[e].start == w.store.events[e].start)
    && w.maxAgeGap <= after.maxAgeGap && SiblingsIn(w.connections) <= SiblingsIn(after.connections)
  }

  lemma LooserRulesFit(profiles: map<Id, Profile>, w: World, op: Op)
    requires TentsLegal(profiles, w) && LoosensRules(profiles, w, op)
    ensures FitsRules(profiles, w, op)
  {
    if ChangesRules(op) {
      var after := Next(profiles, w, op);
      NewRules(profiles, w, op);
      forall e | e in after.store.events ensures TentsLegalAt(profiles, after, e) {
        assert e in w.store.events.Keys && TentsLegalAt(profiles, w, e);
        TI.MonotoneLegal(profiles, w.store.events[e].start, w.maxAgeGap, after.maxAgeGap,
                         SiblingsIn(w.connections), SiblingsIn(after.connections), ListOf(w.store.tents, e));
      }
      RuleChangeIff(profiles, w, op);
    }
  }

  /** Approving a connection takes no sibling away. */
  lemma ApprovalFits(profiles: map<Id, Profile>, w: World, i: nat)
    ensures LostSiblings(w.connections, i, Approved) == {}
    ensures FitsRules(profiles, w, SetStatusOp(i, Approved))
  {
    if i < |w.connections| {
      TI.ApprovalGrows(w.connections, i);
    }
  }

  // ----- Whole runs -----

  ghost predicate FittingRun(profiles: map<Id, Profile>, w: World, ops: seq<Op>) {
    ops == [] ||
    (FittingRun(profiles, w, ops[..|ops| - 1])
     && FitsRules(profiles, Run(profiles, w, ops[..|ops| - 1]), ops[|ops| - 1]))
  }

  /** Every tent is legal after every request of the run. */
  ghost predicate AlwaysLegal(profiles: map<Id, Profile>, w: World, ops: seq<Op>) {
    TentsLegal(profiles, Run(profiles, w, ops)) && (ops == [] || AlwaysLegal(profiles, w, ops[..|ops| - 1]))
  }

  /** Over every run of requests, all tents are legal all the time if and only if every request that changes the rules
      fits those who share a tent. */
  lemma {:induction false} RunsLegalIff(profiles: map<Id, Profile>, connections: seq<Connection>, gap: int,
                                        ops: seq<Op>)
    requires ProperRun(profiles, EmptyWorld(connections, gap), ops)
    ensures AlwaysLegal(profiles, EmptyWorld(connections, gap), ops) <==>
              FittingRun(profiles, EmptyWorld(connections, gap), ops)
  {
    if ops != [] {
      hide TentsLegal, FitsRules, Safe, DrawsFresh;
      var front := ops[..|ops| - 1];
      RunsLegalIff(profiles, connections, gap, front);
      RunsAreSafe(profiles, connections, gap, front);
      if AlwaysLegal(profiles, EmptyWorld(connections, gap), front) {
        StepLegalIff(profiles, Run(profiles, EmptyWorld(connections, gap), front), ops[|ops| - 1]);
      }
    }
  }

  lemma RunsKeepTentsLegal(profiles: map<Id, Profile>, connections: seq<Connection>, gap: int, ops: seq<Op>)
    requires ProperRun(profiles, EmptyWorld(connections, gap), ops)
    requires FittingRun(profiles, EmptyWorld(connections, gap), ops)
    ensures TentsLegal(profiles, Run(profiles, EmptyWorld(connections, gap), ops))
  {
    RunsLegalIff(profiles, connections, gap, ops);
  }

  // ----- Changes that break the rule -----

  const JUNE_SECOND := Instant(Date(2024, 6, 2), 0)
  const OLDER := Profile(7, "", "", "", "", "M", "", "", Instant(Date(2010, 6, 2), 0), Youth, Active, None, "")
  const YOUNGER := Profile(8, "", "", "", "", "M", "", "", Instant(Date(2012, 6, 1), 0), Youth, Active, None, "")

  const PAIR := map[7 := OLDER, 8 := YOUNGER]
  const TWO_LINKS := [Connection(ParentLink(20, 7), Approved), Connection(ParentLink(20, 8), Approved)]

  function PairTent(): Tent {
    Group(3, NextName(TENT_PREFIX, 1), (), [Member(7, ()), Member(8, ())])
  }

  /** An event on the first of June with one tent, which the two scouts share. */
  function PairWorld(connections: seq<Connection>, gap: int): World {
    World(Store(map[1 := EventInfo(JUNE_FIRST, false)], map[1 := [7, 8]], map[], map[], map[], map[1 := [PairTent()]]),
          connections, gap)
  }

  /** On the first of June they are 13 and 12, on the second 14 and 12. */
  lemma PairAges(gap: int)
    ensures AgesFit(OLDER, YOUNGER, JUNE_FIRST, gap) <==> 1 <= gap
    ensures AgesFit(OLDER, YOUNGER, JUNE_SECOND, gap) <==> 2 <= gap
  {
    assert Age(OLDER.birthdate, JUNE_FIRST) == 13 && Age(OLDER.birthdate, JUNE_SECOND) == 14;
    assert Age(YOUNGER.birthdate, JUNE_FIRST) == 12 == Age(YOUNGER.birthdate, JUNE_SECOND);
  }

  lemma PairTogether(connections: seq<Connection>, gap: int)
    ensures Together(PAIR, PairWorld(connections, gap), 1, 7, 8) && PairOf(OLDER, YOUNGER) == ScoutPair(7, 8)
  {
    var gs := [PairTent()];
    assert gs[0].members[0].profile == 7 && gs[0].members[1].profile == 8;
    assert ShareTent(gs, 7, 8);
  }

  lemma PairTentOk()
    ensures TI.TentsOk(PAIR, [PairTent()])
  {
    var tent := PairTent();
    NumberInvertsNextName(TENT_PREFIX, 1);
    forall p ensures Count(tent.members, p) <= 1 {
      var last: Member<()> := Member(8, ());
      assert tent.members == [Member(7, ())] + [last];
      CountAppend([Member(7, ())], last, p);
    }
  }

  lemma PairWorldSafe(connections: seq<Connection>, gap: int)
    ensures Safe(PAIR, PairWorld(connections, gap).store, None)
  {
    var s := PairWorld(connections, gap).store;
    PairTentOk();
    hide TI.TentsOk, NextName;
    assert ListsOk(PAIR, s);
    assert AttendanceAt(s, 1, None) && GateAt(s, 1);
  }

  lemma PairWorldLegal(connections: seq<Connection>, gap: int)
    requires 1 <= gap || ScoutPair(7, 8) in SiblingsIn(connections)
    ensures TentsLegal(PAIR, PairWorld(connections, gap))
  {
    PairAges(gap);
    var w, tent := PairWorld(connections, gap), PairTent();
    var campers := Campers(ScoutsOf(PAIR, tent.members), JUNE_FIRST);
    assert campers[0] == OnDay(ScoutOf(OLDER), JUNE_FIRST) && campers[1] == OnDay(ScoutOf(YOUNGER), JUNE_FIRST);
    assert Legal(campers, gap, SiblingsIn(connections));
    assert TI.LegalTent(PAIR, JUNE_FIRST, gap, SiblingsIn(connections), tent);
    assert TentsLegalAt(PAIR, w, 1);
  }

  /** Moving an event by one day can make a legal tent illegal: one scout's birthday widens the gap. */
  lemma MovedStartBreaksRule(connections: seq<Connection>)
    requires SiblingsIn(connections) == {}
    ensures var w := PairWorld(connections, 1);
            var op := EditEventOp(1, EventInfo(JUNE_SECOND, false), 0);
            && Safe(PAIR, w.store, None) && TentsLegal(PAIR, w)
            && !FitsRules(PAIR, w, op) && !TentsLegal(PAIR, Next(PAIR, w, op))
  {
    hide Safe, TentsLegal, Together, AgesFit;
    PairWorldSafe(connections, 1);
    PairWorldLegal(connections, 1);
    PairTogether(connections, 1);
    PairAges(1);
    EditIff(PAIR, PairWorld(connections, 1), 1, EventInfo(JUNE_SECOND, false), 0);
  }

  /** So can a lower limit. */
  lemma LoweredLimitBreaksRule(connections: seq<Connection>)
    requires SiblingsIn(connections) == {}
    ensures var w := PairWorld(connections, 1);
            && Safe(PAIR, w.store, None) && TentsLegal(PAIR, w)
            && !FitsRules(PAIR, w, SetAgeGapOp(0)) && !TentsLegal(PAIR, Next(PAIR, w, SetAgeGapOp(0)))
  {
    hide Safe, TentsLegal, Together, AgesFit;
    PairWorldSafe(connections, 1);
    PairWorldLegal(connections, 1);
    PairTogether(connections, 1);
    PairAges(0);
    var w := PairWorld(connections, 1);
    assert 1 in w.store.events && !OthersFit(PAIR, w, 1, w.store.events[1].start, 0);
    LimitIff(PAIR, w, 0);
  }

  lemma TwoLinks()
    ensures ScoutPair(7, 8) in LostSiblings(TWO_LINKS, 0, Revoked) && ScoutPair(7, 8) in SiblingsIn(TWO_LINKS)
  {
    var links := ApprovedLinks(TWO_LINKS);
    ApprovedMember(TWO_LINKS, ParentLink(20, 7));
    ApprovedMember(TWO_LINKS, ParentLink(20, 8));
    assert TWO_LINKS[0] in TWO_LINKS && TWO_LINKS[1] in TWO_LINKS;
    SiblingsShareAParent(links, 7, 8);
    var after := NextConnections(TWO_LINKS, SetStatusOp(0, Revoked));
    SiblingsShareAParent(ApprovedLinks(after), 7, 8);
    forall parent ensures ParentLink(parent, 7) !in ApprovedLinks(after) {
      ApprovedMember(after, ParentLink(parent, 7));
    }
  }

  /** And so can a revoked connection, when it was what made the two siblings. */
  lemma RevokedLinkBreaksRule()
    ensures var w := PairWorld(TWO_LINKS, 0);
            var op := SetStatusOp(0, Revoked);
            && Safe(PAIR, w.store, None) && TentsLegal(PAIR, w)
            && !FitsRules(PAIR, w, op) && !TentsLegal(PAIR, Next(PAIR, w, op))
  {
    hide Safe, TentsLegal, Together, AgesFit, LostSiblings;
    TwoLinks();
    PairWorldSafe(TWO_LINKS, 0);
    PairWorldLegal(TWO_LINKS, 0);
    PairTogether(TWO_LINKS, 0);
    PairAges(0);
    assert !FormerFit(PAIR, PairWorld(TWO_LINKS, 0), 1, LostSiblings(TWO_LINKS, 0, Revoked));
    StatusIff(PAIR, PairWorld(TWO_LINKS, 0), 0, Revoked);
  }

  /** In every reachable state no tent has a blocking violation. */
  lemma NoTentIsBlocked(profiles: map<Id, Profile>, connections: seq<Connection>, gap: int, ops: seq<Op>, e: Id, i: nat)
    requires ProperRun(profiles, EmptyWorld(connections, gap), ops)
    requires FittingRun(profiles, EmptyWorld(connections, gap), ops)
    requires var w := Run(profiles, EmptyWorld(connections, gap), ops);
             e in w.store.events && i < |ListOf(w.store.tents, e)|
    ensures var w := Run(profiles, EmptyWorld(connections, gap), ops);
            var tent := ListOf(w.store.tents, e)[i];
            && AllKnown(profiles, tent.members)
            && Blocking(Campers(ScoutsOf(profiles, tent.members), w.store.events[e].start), w.maxAgeGap,
                        SiblingsIn(w.connections)) == []
  {
    var w := Run(profiles, EmptyWorld(connections, gap), ops);
    RunsKeepTentsLegal(profiles, connections, gap, ops);
    assert TentsLegalAt(profiles, w, e);
    var tent := ListOf(w.store.tents, e)[i];
    assert TI.LegalTent(profiles, w.store.events[e].start, w.maxAgeGap, SiblingsIn(w.connections), tent);
    BlockingEmptyIffLegal(Campers(ScoutsOf(profiles, tent.members), w.store.events[e].start), w.maxAgeGap,
                          SiblingsIn(w.connections));
  }
}
