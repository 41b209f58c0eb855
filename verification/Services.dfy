/** The tent and cooking services and the event handlers as functions on the repository state
    (internal/domain/event/tent_service.go, cooking_service.go, internal/api/events.go). */
module ServiceSpec {
  import opened Common
  import opened Calendar
  import opened TentRules
  import opened Profiles
  import opened Names
  import opened Groups
  import opened StoreSpec

  // ----- Parent youth connections -----

  datatype LinkStatus = Pending | Approved | Rejected | Revoked
  datatype Connection = Connection(link: ParentLink, status: LinkStatus)

  function ApprovedLinks(connections: seq<Connection>): seq<ParentLink> {
    if connections == [] then []
    else
      var rest := ApprovedLinks(connections[..|connections| - 1]);
      var last := connections[|connections| - 1];
      if last.status == Approved then rest + [last.link] else rest
  }

  ghost function SiblingsIn(connections: seq<Connection>): set<ScoutPair> {
    Siblings(ApprovedLinks(connections))
  }

  // ----- Tent service -----

  function ScoutOf(p: Profile): TentScout {
    TentScout(p.id, DisplayName(p), p.gender, p.birthdate)
  }

  predicate AllKnown<F>(profiles: map<Id, Profile>, ms: seq<Member<F>>) {
    forall a | 0 <= a < |ms| :: ms[a].profile in profiles
  }

  function ScoutsOf(profiles: map<Id, Profile>, ms: seq<Member<()>>): seq<TentScout>
    requires AllKnown(profiles, ms)
  {
    seq(|ms|, a requires 0 <= a < |ms| => ScoutOf(profiles[ms[a].profile]))
  }

  /** The tent as it would be with the profile added, in list order. */
  function Prospective(profiles: map<Id, Profile>, ms: seq<Member<()>>, p: Id): seq<TentScout>
    requires AllKnown(profiles, ms) && p in profiles
  {
    ScoutsOf(profiles, ms) + if Count(ms, p) > 0 then [] else [ScoutOf(profiles[p])]
  }

  ghost function BlockedBy(profiles: map<Id, Profile>, connections: seq<Connection>, start: Instant, gap: int,
                           ms: seq<Member<()>>, p: Id): seq<Violation>
    requires AllKnown(profiles, ms) && p in profiles
  {
    Blocking(Campers(Prospective(profiles, ms, p), start), gap, SiblingsIn(connections))
  }

  datatype Placement = Accepted | Blocked(violations: seq<Violation>) | Refused(fault: Fault)

  ghost function AssignToTent(profiles: map<Id, Profile>, connections: seq<Connection>, s: Store, e: Id, t: Id, p: Id,
                              gap: int)
    : (Store, Placement)
  {
    if p !in profiles then (s, Refused(ProfileNotFound))
    else if profiles[p].memberType != Youth then (s, Refused(AdultInTent))
    else if e !in s.events then (s, Refused(EventNotFound))
    else
      var gs := ListOf(s.tents, e);
      var k := Find(gs, t);
      if k == |gs| then (s, Refused(TentNotFound))
      else if Has(gs[k], p) then (s, Accepted)
      else if !AllKnown(profiles, gs[k].members) then (s, Refused(ProfileNotFound))
      else
        var violations := BlockedBy(profiles, connections, s.events[e].start, gap, gs[k].members, p);
        if violations != [] then (s, Blocked(violations))
        else
          var (s', reply) := AssignTentMember(profiles, s, e, t, p);
          (s', if reply.Done? then Accepted else Refused(reply.fault))
  }

  /** Every member of every tent but the excluded one has a profile. */
  predicate KnownBut(profiles: map<Id, Profile>, gs: seq<Tent>, exclude: Option<Id>) {
    forall i | 0 <= i < |gs| :: exclude == Some(gs[i].id) || AllKnown(profiles, gs[i].members)
  }

  /** The tents of a list that the rules leave open to a scout, in list order. */
  ghost function OpenTents(profiles: map<Id, Profile>, connections: seq<Connection>, start: Instant, gap: int,
                           gs: seq<Tent>, p: Id, exclude: Option<Id>): seq<Tent>
    requires p in profiles && KnownBut(profiles, gs, exclude)
  {
    if gs == [] then []
    else
      var last := gs[|gs| - 1];
      var rest := OpenTents(profiles, connections, start, gap, gs[..|gs| - 1], p, exclude);
      if exclude == Some(last.id) then rest
      else if BlockedBy(profiles, connections, start, gap, last.members, p) != [] then rest
      else rest + [last]
  }

  // ----- Cooking service -----

  function AfterSignUp(profiles: map<Id, Profile>, s: Store, e: Id, p: Id, newId: Id): (Store, Reply) {
    if e !in s.events then (s, Failed(EventNotFound))
    else if !s.events[e].cooking then (s, Done)
    else if p !in profiles then (s, Failed(ProfileNotFound))
    else if profiles[p].memberType != Adult then (s, Done)
    else
      var gs := ListOf(s.patrols, e);
      var k := FirstAdult(gs);
      if k < |gs| then AssignCookingPatrolMember(profiles, s, e, gs[k].id, p)
      else AssignCookingPatrolMember(profiles, CreateCookingPatrol(s, e, true, newId).0, e, newId, p)
  }

  predicate HoldsCook(g: CookingPatrol, p: Id) {
    Member(p, true) in g.members
  }

  /** Clears the cook of every listed patrol whose cook the profile is. */
  function ClearCooksHeld(s: Store, listed: seq<CookingPatrol>, p: Id): Store {
    if listed == [] then s
    else
      var s' := ClearCooksHeld(s, listed[..|listed| - 1], p);
      var last := listed[|listed| - 1];
      if HoldsCook(last, p) then ClearCookingPatrolCook(s', last.id) else s'
  }

  /** Shared by the withdrawal cascade and the remove-member route. */
  function LeavePatrol(s: Store, e: Id, p: Id): (Store, Reply) {
    if e !in s.events then (s, Failed(EventNotFound))
    else (RemoveCookingPatrolMember(ClearCooksHeld(s, ListOf(s.patrols, e), p), e, p), Done)
  }

  function AssignToPatrol(profiles: map<Id, Profile>, s: Store, e: Id, g: Id, p: Id): (Store, Reply) {
    var gs := ListOf(s.patrols, e);
    var k := Find(gs, g);
    if p !in profiles then (s, Failed(ProfileNotFound))
    else if profiles[p].memberType == Adult && e !in s.events then (s, Failed(EventNotFound))
    else if profiles[p].memberType == Adult && (k == |gs| || !gs[k].kind) then (s, Failed(AdultInYouthPatrol))
    else AssignCookingPatrolMember(profiles, s, e, g, p)
  }

  // ----- Event handlers -----

  /** `leads` is the outcome of the test for the Senior Patrol Leader position. */
  function HandleSignUp(profiles: map<Id, Profile>, s: Store, e: Id, p: Id, leads: bool, newId: Id): Store {
    if e !in s.events || p !in profiles then s
    else
      var s1 := SignUp(profiles, s, e, p).0;
      var s2 := if profiles[p].memberType == Youth && leads then AssignResponsibility(s1, e, p, SPL).0 else s1;
      AfterSignUp(profiles, s2, e, p, newId).0
  }

  function DropDuties(s: Store, e: Id, p: Id): Store {
    var s0 := RemoveDriver(s, e, p);
    var s1 := RemoveResponsibility(s0, e, p, SPL);
    var s2 := RemoveResponsibility(s1, e, p, Coordinator);
    var s3 := RemoveResponsibility(s2, e, p, MedicalOfficer);
    RemoveResponsibility(s3, e, p, Driver)
  }

  function HandleWithdraw(profiles: map<Id, Profile>, s: Store, e: Id, p: Id): Store {
    if e !in s.events || p !in profiles then s
    else
      var s1 := DropDuties(Withdraw(s, e, p).0, e, p);
      RemoveTentMember(LeavePatrol(s1, e, p).0, e, p)
  }

  function HandleToggle(s: Store, e: Id, p: Id, r: Responsibility): (Store, Reply) {
    if r == Driver then (s, Failed(DriverManagedSeparately))
    else if e !in s.events then (s, Failed(EventNotFound))
    else if p !in ListOf(s.attendees, e) then (s, Failed(NotSignedUp))
    else if Assignment(p, r) in ListOf(s.duties, e) then (RemoveResponsibility(s, e, p, r), Done)
    else
      var (s', reply) := AssignResponsibility(s, e, p, r);
      if reply.Failed? && reply.fault.SingletonConflict? then
        AssignResponsibility(RemoveResponsibility(s', e, reply.fault.holder, r), e, p, r)
      else (s', reply)
  }

  function HandleCreate(profiles: map<Id, Profile>, s: Store, e: Id, info: EventInfo, creator: Option<Id>,
                        newId: Id): Store {
    var s0 := CreateEvent(s, e, info);
    match creator
    case None => s0
    case Some(p) =>
      var (s1, reply) := SignUp(profiles, s0, e, p);
      var s2 := if reply.Done? then AssignResponsibility(s1, e, p, Coordinator).0 else s1;
      AfterSignUp(profiles, s2, e, p, newId).0
  }

  function HandleEdit(profiles: map<Id, Profile>, s: Store, e: Id, info: EventInfo, newId: Id): Store {
    if e !in s.events then s
    else UpdateWithCooking(profiles, s, e, info, s.events[e].cooking, newId).0
  }

  predicate CookingOpen(s: Store, e: Id) {
    e in s.events && s.events[e].cooking
  }

  // ----- Whole runs -----

  /** The state a run of requests works on: the store, the connections and the configured age limit. */
  datatype World = World(store: Store, connections: seq<Connection>, maxAgeGap: int)

  datatype Op =
    | CreateEventOp(event: Id, info: EventInfo, creator: Option<Id>, newPatrol: Id)
    | EditEventOp(event: Id, info: EventInfo, newPatrol: Id)
    | DeleteEventOp(event: Id)
    | SignUpOp(event: Id, profile: Id, leads: bool, newPatrol: Id)
    | WithdrawOp(event: Id, profile: Id)
    | ToggleOp(event: Id, profile: Id, responsibility: Responsibility)
    | AddDriverOp(event: Id, profile: Id)
    | RemoveDriverOp(event: Id, profile: Id)
    | CreateTentOp(event: Id, newTent: Id)
    | DeleteTentOp(tent: Id)
    | AssignTentOp(event: Id, tent: Id, profile: Id)
    | RemoveTentMemberOp(event: Id, profile: Id)
    | CreatePatrolOp(event: Id, newPatrol: Id)
    | DeletePatrolOp(event: Id, patrol: Id)
    | AssignPatrolOp(event: Id, patrol: Id, profile: Id)
    | RemovePatrolMemberOp(event: Id, profile: Id)
    | SetCookOp(event: Id, patrol: Id, profile: Id)
    | ClearCookOp(event: Id, patrol: Id)
    | AddConnectionOp(connection: Connection)
    | SetStatusOp(index: nat, status: LinkStatus)
    | SetAgeGapOp(maxAgeGap: int)

  ghost function NextStore(profiles: map<Id, Profile>, w: World, op: Op): Store {
    var s := w.store;
    match op
    case CreateEventOp(e, info, creator, newId) => HandleCreate(profiles, s, e, info, creator, newId)
    case EditEventOp(e, info, newId) => HandleEdit(profiles, s, e, info, newId)
    case DeleteEventOp(e) => DeleteEvent(s, e).0
    case SignUpOp(e, p, leads, newId) => HandleSignUp(profiles, s, e, p, leads, newId)
    case WithdrawOp(e, p) => HandleWithdraw(profiles, s, e, p)
    case ToggleOp(e, p, r) => HandleToggle(s, e, p, r).0
    case AddDriverOp(e, p) => if e in s.events && p in profiles then AddDriver(s, e, p).0 else s
    case RemoveDriverOp(e, p) => RemoveDriver(s, e, p)
    case CreateTentOp(e, newId) => CreateTent(s, e, newId).0
    case DeleteTentOp(t) => DeleteTent(s, t).0
    case AssignTentOp(e, t, p) => AssignToTent(profiles, w.connections, s, e, t, p, w.maxAgeGap).0
    case RemoveTentMemberOp(e, p) => RemoveTentMember(s, e, p)
    case CreatePatrolOp(e, newId) => if CookingOpen(s, e) then CreateCookingPatrol(s, e, false, newId).0 else s
    case DeletePatrolOp(e, g) => if CookingOpen(s, e) then DeleteCookingPatrol(s, g).0 else s
    case AssignPatrolOp(e, g, p) => if CookingOpen(s, e) then AssignToPatrol(profiles, s, e, g, p).0 else s
    case RemovePatrolMemberOp(e, p) => if CookingOpen(s, e) then LeavePatrol(s, e, p).0 else s
    case SetCookOp(e, g, p) => if CookingOpen(s, e) then SetCookingPatrolCook(s, e, g, p).0 else s
    case ClearCookOp(e, g) => if CookingOpen(s, e) then ClearCookingPatrolCook(s, g) else s
    case AddConnectionOp(_) => s
    case SetStatusOp(_, _) => s
    case SetAgeGapOp(_) => s
  }

  function NextConnections(connections: seq<Connection>, op: Op): seq<Connection> {
    if op.AddConnectionOp? then connections + [op.connection]
    else if op.SetStatusOp? && op.index < |connections| then
      connections[op.index := connections[op.index].(status := op.status)]
    else connections
  }

  ghost function Next(profiles: map<Id, Profile>, w: World, op: Op): World {
    World(
      NextStore(profiles, w, op),
      NextConnections(w.connections, op),
      if op.SetAgeGapOp? then op.maxAgeGap else w.maxAgeGap)
  }

  /** The identifiers a request draws are new, and the number of a new group still fits Go's int. */
  ghost predicate DrawsFresh(w: World, op: Op) {
    var s := w.store;
    && (op.CreateEventOp? ==>
          op.event !in s.events && op.event !in s.attendees && op.event !in s.duties
          && op.event !in s.patrols && op.event !in s.tents)
    && (op.CreateTentOp? ==> !Known(s.tents, op.newTent) && Highest(TENT_PREFIX, ListOf(s.tents, op.event)) < INT_MAX)
    && (op.CreatePatrolOp? ==> Highest(PATROL_PREFIX, ListOf(s.patrols, op.event)) < INT_MAX)
    && (op.CreateEventOp? || op.EditEventOp? || op.SignUpOp? || op.CreatePatrolOp? ==> !Known(s.patrols, op.newPatrol))
  }

  ghost function Run(profiles: map<Id, Profile>, w: World, ops: seq<Op>): World {
    if ops == [] then w else Next(profiles, Run(profiles, w, ops[..|ops| - 1]), ops[|ops| - 1])
  }

  /** A run in which every request draws fresh identifiers. */
  ghost predicate ProperRun(profiles: map<Id, Profile>, w: World, ops: seq<Op>) {
    ops == [] ||
    (ProperRun(profiles, w, ops[..|ops| - 1]) && DrawsFresh(Run(profiles, w, ops[..|ops| - 1]), ops[|ops| - 1]))
  }

  function EmptyWorld(connections: seq<Connection>, maxAgeGap: int): World {
    World(Store(map[], map[], map[], map[], map[], map[]), connections, maxAgeGap)
  }
}
