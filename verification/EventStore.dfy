/** The event repository's operations as functions on its state (internal/storage/mock/repositories.go). */
module StoreSpec {
  import opened Common
  import opened Calendar
  import opened Profiles
  import opened Names
  import opened Groups

  datatype EventInfo = EventInfo(start: Instant, cooking: bool)

  type Tent = Group<(), ()>

  /** `kind` is IsAdult and a member's `flag` is IsCook. */
  type CookingPatrol = Group<bool, bool>

  /** Other covers the free-text responsibilities that the toggle route accepts. */
  datatype Responsibility = Driver | SPL | Coordinator | MedicalOfficer | Other(name: string)
  datatype Assignment = Assignment(profile: Id, responsibility: Responsibility)

  /** `withdrawn` lists who has withdrawn from an event at some time. The database keeps their attendance rows, with the
      status canceled; of all operations only the one that adds a driver looks at them. */
  datatype Store = Store(
    events: map<Id, EventInfo>,
    attendees: map<Id, seq<Id>>,
    withdrawn: map<Id, seq<Id>>,
    duties: map<Id, seq<Assignment>>,
    patrols: map<Id, seq<CookingPatrol>>,
    tents: map<Id, seq<Tent>>)

  datatype Fault =
    | EventNotFound | TentNotFound | PatrolNotFound | ProfileNotFound | NotSignedUp
    | AdultPatrolExists | NotAPatrolMember | SingletonConflict(holder: Id)
    | AdultInTent | AdultInYouthPatrol | DriverManagedSeparately

  datatype Reply = Done | Failed(fault: Fault)

  function IsSingleton(r: Responsibility): bool {
    r in {SPL, Coordinator, MedicalOfficer}
  }

  predicate IsAdultIn(profiles: map<Id, Profile>, p: Id) {
    p in profiles && profiles[p].memberType == Adult
  }

  /** Splicing the first occurrence of a value out of a list. */
  function Without<T(==)>(s: seq<T>, x: T): seq<T> {
    if s == [] then [] else if s[0] == x then s[1..] else [s[0]] + Without(s[1..], x)
  }

  // ----- Attendance -----

  function SignUp(profiles: map<Id, Profile>, s: Store, e: Id, p: Id): (Store, Reply) {
    if e !in s.events then (s, Failed(EventNotFound))
    else if p !in profiles then (s, Failed(ProfileNotFound))
    else if p in ListOf(s.attendees, e) then (s, Done)
    else (s.(attendees := s.attendees[e := ListOf(s.attendees, e) + [p]]), Done)
  }

  function Withdraw(s: Store, e: Id, p: Id): (Store, Reply) {
    if e !in s.events then (s, Failed(EventNotFound))
    else if p in ListOf(s.attendees, e) then
      (s.(attendees := s.attendees[e := Without(s.attendees[e], p)],
          withdrawn := s.withdrawn[e := ListOf(s.withdrawn, e) + [p]]), Done)
    else (s, Done)
  }

  /** There is an attendance row, whatever its status. */
  predicate HasSignedUp(s: Store, e: Id, p: Id) {
    p in ListOf(s.attendees, e) || p in ListOf(s.withdrawn, e)
  }

  // ----- Numbered groups -----

  /** The largest number in use, 0 when there is none. */
  function Highest<K, F>(prefix: string, gs: seq<Group<K, F>>): int {
    if gs == [] then 0
    else
      var h := Highest(prefix, gs[..|gs| - 1]);
      match Number(prefix, gs[|gs| - 1].name)
      case Some(n) => if n > h then n else h
      case None => h
  }

  function FreshName<K, F>(prefix: string, gs: seq<Group<K, F>>): string {
    NextName(prefix, Increment(Highest(prefix, gs)))
  }

  predicate Known<K, F>(m: map<Id, seq<Group<K, F>>>, id: Id) {
    exists e | e in m :: Find(m[e], id) < |m[e]|
  }

  function DropGroupIn<K, F>(m: map<Id, seq<Group<K, F>>>, id: Id): map<Id, seq<Group<K, F>>> {
    map e | e in m :: DropGroup(m[e], id)
  }

  /** Group identifiers are UUIDs: no two groups of any two events share one. */
  ghost predicate UniqueIds<K, F>(m: map<Id, seq<Group<K, F>>>) {
    forall e, e', i, j | e in m && e' in m && 0 <= i < |m[e]| && 0 <= j < |m[e']| ::
      m[e][i].id == m[e'][j].id ==> e == e' && i == j
  }

  // ----- Tents -----

  function CreateTent(s: Store, e: Id, newId: Id): (Store, Reply) {
    if e !in s.events then (s, Failed(EventNotFound))
    else
      var gs := ListOf(s.tents, e);
      (s.(tents := s.tents[e := gs + [Group(newId, FreshName(TENT_PREFIX, gs), (), [])]]), Done)
  }

  function DeleteTent(s: Store, t: Id): (Store, Reply) {
    if Known(s.tents, t) then (s.(tents := DropGroupIn(s.tents, t)), Done)
    else (s, Failed(TentNotFound))
  }

  function AssignTentMember(profiles: map<Id, Profile>, s: Store, e: Id, t: Id, p: Id): (Store, Reply) {
    if e !in s.events then (s, Failed(EventNotFound))
    else
      var gs := ListOf(s.tents, e);
      var k := Find(gs, t);
      if k == |gs| then (s, Failed(TentNotFound))
      else if p !in profiles then (s, Failed(ProfileNotFound))
      else if p !in ListOf(s.attendees, e) then (s, Failed(NotSignedUp))
      else (s.(tents := s.tents[e := PlaceAt(gs, k, p, ())]), Done)
  }

  function RemoveTentMember(s: Store, e: Id, p: Id): Store {
    if e in s.tents then s.(tents := s.tents[e := PullFirst(s.tents[e], p)]) else s
  }

  // ----- Cooking patrols -----

  predicate HasAdultPatrol(gs: seq<CookingPatrol>) {
    exists i | 0 <= i < |gs| :: gs[i].kind
  }

  function CreateCookingPatrol(s: Store, e: Id, isAdult: bool, newId: Id): (Store, Reply) {
    var gs := ListOf(s.patrols, e);
    if e !in s.events then (s, Failed(EventNotFound))
    else if isAdult && HasAdultPatrol(gs) then (s, Failed(AdultPatrolExists))
    else
      var name := if isAdult then ADULTS_NAME else FreshName(PATROL_PREFIX, gs);
      (s.(patrols := s.patrols[e := gs + [Group(newId, name, isAdult, [])]]), Done)
  }

  function DeleteCookingPatrol(s: Store, g: Id): (Store, Reply) {
    if Known(s.patrols, g) then (s.(patrols := DropGroupIn(s.patrols, g)), Done)
    else (s, Failed(PatrolNotFound))
  }

  function AssignCookingPatrolMember(profiles: map<Id, Profile>, s: Store, e: Id, g: Id, p: Id): (Store, Reply) {
    if e !in s.events then (s, Failed(EventNotFound))
    else
      var gs := ListOf(s.patrols, e);
      var k := Find(gs, g);
      if k == |gs| then (s, Failed(PatrolNotFound))
      else if p !in profiles then (s, Failed(ProfileNotFound))
      else if p !in ListOf(s.attendees, e) then (s, Failed(NotSignedUp))
      else (s.(patrols := s.patrols[e := PlaceAt(gs, k, p, false)]), Done)
  }

  function RemoveCookingPatrolMember(s: Store, e: Id, p: Id): Store {
    if e in s.patrols then s.(patrols := s.patrols[e := PullFirst(s.patrols[e], p)]) else s
  }

  function SetCookingPatrolCook(s: Store, e: Id, g: Id, p: Id): (Store, Reply) {
    var gs := ListOf(s.patrols, e);
    var k := Find(gs, g);
    if k == |gs| then (s, Failed(NotAPatrolMember))
    else
      var s' := s.(patrols := s.patrols[e := ReflagGroup(gs, g, Some(p))]);
      (s', if Has(gs[k], p) then Done else Failed(NotAPatrolMember))
  }

  function ClearCookIn(m: map<Id, seq<CookingPatrol>>, g: Id): map<Id, seq<CookingPatrol>> {
    map e | e in m :: ReflagGroup(m[e], g, None)
  }

  function ClearCookingPatrolCook(s: Store, g: Id): Store {
    s.(patrols := ClearCookIn(s.patrols, g))
  }

  function AdultsOf(profiles: map<Id, Profile>, people: seq<Id>): seq<Id> {
    if people == [] then []
    else
      var rest := AdultsOf(profiles, people[..|people| - 1]);
      var last := people[|people| - 1];
      if IsAdultIn(profiles, last) then rest + [last] else rest
  }

  /** Moving several people into group k, one after the other. */
  function PlaceAll(gs: seq<CookingPatrol>, k: nat, people: seq<Id>): (r: seq<CookingPatrol>)
    requires k < |gs|
    ensures |r| == |gs|
  {
    if people == [] then gs
    else PlaceAt(PlaceAll(gs, k, people[..|people| - 1]), k, people[|people| - 1], false)
  }

  function Seated(people: seq<Id>): (r: seq<Member<bool>>)
    ensures |r| == |people|
  {
    seq(|people|, i requires 0 <= i < |people| => Member(people[i], false))
  }

  function FirstAdult(gs: seq<CookingPatrol>): (k: nat)
    ensures k <= |gs|
    ensures k < |gs| ==> gs[k].kind
    ensures forall i | 0 <= i < k :: !gs[i].kind
  {
    if gs == [] then 0 else if gs[0].kind then 0 else 1 + FirstAdult(gs[1..])
  }

  /** Switching cooking on seats every attending adult in the adult patrol, created if need be. */
  function EnableCooking(gs: seq<CookingPatrol>, adults: seq<Id>, newId: Id): seq<CookingPatrol> {
    var k := FirstAdult(gs);
    if k < |gs| then PlaceAll(gs, k, adults)
    else gs + [Group(newId, ADULTS_NAME, true, Seated(adults))]
  }

  function UpdateWithCooking(profiles: map<Id, Profile>, s: Store, e: Id, info: EventInfo, prevCooking: bool,
                             newId: Id): (Store, Reply) {
    if e !in s.events then (s, Failed(EventNotFound))
    else
      var s' := s.(events := s.events[e := info]);
      if prevCooking == info.cooking then (s', Done)
      else if !info.cooking then (s'.(patrols := s.patrols - {e}), Done)
      else
        var adults := AdultsOf(profiles, ListOf(s.attendees, e));
        (s'.(patrols := s.patrols[e := EnableCooking(ListOf(s.patrols, e), adults, newId)]), Done)
  }

  // ----- Responsibilities -----

  /** Index of the first holder of a responsibility, or the length when there is none. */
  function Holder(ds: seq<Assignment>, r: Responsibility): (k: nat)
    ensures k <= |ds|
    ensures k < |ds| ==> ds[k].responsibility == r
    ensures forall i | 0 <= i < k :: ds[i].responsibility != r
  {
    if ds == [] then 0 else if ds[0].responsibility == r then 0 else 1 + Holder(ds[1..], r)
  }

  function AssignResponsibility(s: Store, e: Id, p: Id, r: Responsibility): (Store, Reply) {
    var ds := ListOf(s.duties, e);
    var k := Holder(ds, r);
    if e !in s.events then (s, Failed(EventNotFound))
    else if IsSingleton(r) && k < |ds| && ds[k].profile != p then (s, Failed(SingletonConflict(ds[k].profile)))
    else if Assignment(p, r) in ds then (s, Done)
    else (s.(duties := s.duties[e := ds + [Assignment(p, r)]]), Done)
  }

  function RemoveResponsibility(s: Store, e: Id, p: Id, r: Responsibility): Store {
    if e in s.duties then s.(duties := s.duties[e := Without(s.duties[e], Assignment(p, r))]) else s
  }

  /** Drivers are the rows of the responsibilities with this name. A driver row refers to an attendance row of the event
      and the profile, canceled or not, so it is refused when there is none. */
  function AddDriver(s: Store, e: Id, p: Id): (Store, Reply) {
    if !HasSignedUp(s, e, p) then (s, Failed(NotSignedUp)) else AssignResponsibility(s, e, p, Driver)
  }

  function RemoveDriver(s: Store, e: Id, p: Id): Store {
    RemoveResponsibility(s, e, p, Driver)
  }

  // ----- Events -----

  function CreateEvent(s: Store, newId: Id, info: EventInfo): Store {
    s.(events := s.events[newId := info])
  }

  function DeleteEvent(s: Store, e: Id): (Store, Reply) {
    if e !in s.events then (s, Failed(EventNotFound))
    else (s.(events := s.events - {e}, attendees := s.attendees - {e}, withdrawn := s.withdrawn - {e}), Done)
  }
}
