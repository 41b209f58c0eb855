/** The in-memory event repository: the maps, and the loops that search and splice their lists
    (internal/storage/mock/repositories.go). Each method holds the mutex for its whole body and is one step. */
module EventRepositories {
  import opened Common
  import opened Profiles
  import opened Names
  import opened Groups
  import opened StoreSpec
  import Spec = StoreSpec

  // ----- Searching and splicing lists -----

  method IndexOfGroup<K, F>(gs: seq<Group<K, F>>, id: Id) returns (k: nat)
    ensures k == Find(gs, id)
  {
    for i := 0 to |gs|
      invariant forall j | 0 <= j < i :: gs[j].id != id
    {
      if gs[i].id == id {
        return i;
      }
    }
    return |gs|;
  }

  lemma {:induction false} DropFirstAt<F>(ms: seq<Member<F>>, p: Id, a: nat)
    requires a < |ms| && ms[a].profile == p
    requires forall b | 0 <= b < a :: ms[b].profile != p
    ensures DropFirst(ms, p) == ms[..a] + ms[a + 1..]
    ensures Count(ms, p) > 0
  {
    if a > 0 {
      DropFirstAt(ms[1..], p, a - 1);
      assert ms[..a] + ms[a + 1..] == [ms[0]] + (ms[1..][..a - 1] + ms[1..][a..]);
    }
  }

  /** The inner loop that deletes the first entry of a profile. */
  method Splice<F>(ms: seq<Member<F>>, p: Id) returns (r: seq<Member<F>>, found: bool)
    ensures r == DropFirst(ms, p)
    ensures found <==> Count(ms, p) > 0
  {
    for a := 0 to |ms|
      invariant forall b | 0 <= b < a :: ms[b].profile != p
    {
      if ms[a].profile == p {
        DropFirstAt(ms, p, a);
        return ms[..a] + ms[a + 1..], true;
      }
    }
    CountPositive(ms, p);
    DropAbsent(ms, p);
    return ms, false;
  }

  /** The double loop of the assign operations: every group loses its first entry of the profile. */
  method SpliceEverywhere<K, F>(gs: seq<Group<K, F>>, p: Id) returns (r: seq<Group<K, F>>)
    ensures r == PullOut(gs, p)
  {
    r := [];
    for i := 0 to |gs|
      invariant r == PullOut(gs, p)[..i]
    {
      var ms, _ := Splice(gs[i].members, p);
      r := r + [gs[i].(members := ms)];
    }
  }

  lemma {:induction false} PullFirstAt<K, F>(gs: seq<Group<K, F>>, p: Id, i: nat)
    requires i <= |gs|
    requires forall j | 0 <= j < i :: !Has(gs[j], p)
    requires i < |gs| ==> Has(gs[i], p)
    ensures PullFirst(gs, p) ==
            if i < |gs| then gs[i := gs[i].(members := DropFirst(gs[i].members, p))] else gs
  {
    if i > 0 {
      assert forall j | 0 <= j < i - 1 :: gs[1..][j] == gs[j + 1];
      PullFirstAt(gs[1..], p, i - 1);
    }
  }

  /** The double loop of the remove operations: it stops at the first entry found. */
  method SpliceOnce<K, F>(gs: seq<Group<K, F>>, p: Id) returns (r: seq<Group<K, F>>)
    ensures r == PullFirst(gs, p)
  {
    for i := 0 to |gs|
      invariant forall j | 0 <= j < i :: !Has(gs[j], p)
    {
      var ms, found := Splice(gs[i].members, p);
      if found {
        PullFirstAt(gs, p, i);
        return gs[i := gs[i].(members := ms)];
      }
    }
    PullFirstAt(gs, p, |gs|);
    return gs;
  }

  lemma {:induction false} WithoutAt<T>(s: seq<T>, x: T, i: nat)
    requires i < |s| && s[i] == x && x !in s[..i]
    ensures Without(s, x) == s[..i] + s[i + 1..]
  {
    if i > 0 {
      assert s[1..][..i - 1] == s[..i][1..];
      WithoutAt(s[1..], x, i - 1);
      assert s[..i] + s[i + 1..] == [s[0]] + (s[1..][..i - 1] + s[1..][i..]);
    }
  }

  lemma {:induction false} WithoutAbsent<T>(s: seq<T>, x: T)
    requires x !in s
    ensures Without(s, x) == s
  {
    if s != [] {
      WithoutAbsent(s[1..], x);
    }
  }

  method SpliceValue<T(==)>(s: seq<T>, x: T) returns (r: seq<T>)
    ensures r == Without(s, x)
  {
    for i := 0 to |s|
      invariant x !in s[..i]
    {
      if s[i] == x {
        WithoutAt(s, x, i);
        return s[..i] + s[i + 1..];
      }
    }
    WithoutAbsent(s, x);
    return s;
  }

  method Contains(people: seq<Id>, p: Id) returns (found: bool)
    ensures found <==> p in people
  {
    for i := 0 to |people|
      invariant p !in people[..i]
    {
      if people[i] == p {
        return true;
      }
    }
    return false;
  }

  /** The loop that finds the largest number in use. */
  method HighestNumber<K, F>(prefix: string, gs: seq<Group<K, F>>) returns (highest: int)
    ensures highest == Highest(prefix, gs)
  {
    highest := 0;
    for i := 0 to |gs|
      invariant highest == Highest(prefix, gs[..i])
    {
      assert gs[..i + 1][..i] == gs[..i];
      match Number(prefix, gs[i].name)
      case Some(n) =>
        if n > highest {
          highest := n;
        }
      case None =>
    }
    assert gs[..|gs|] == gs;
  }

  /** Looking a group up over all events, in map iteration order. */
  method EventOfGroup<K, F>(m: map<Id, seq<Group<K, F>>>, id: Id) returns (where: Option<Id>)
    ensures where.Some? ==> where.value in m && Find(m[where.value], id) < |m[where.value]|
    ensures where.None? ==> !Known(m, id)
  {
    var todo := m.Keys;
    while todo != {}
      invariant todo <= m.Keys
      invariant forall e | e in m && e !in todo :: Find(m[e], id) == |m[e]|
    {
      var e := NextKey(todo);
      var k := IndexOfGroup(m[e], id);
      if k < |m[e]| {
        return Some(e);
      }
      todo := todo - {e};
    }
    return None;
  }

  /** With unique identifiers, changing the one list that has the group changes all that need it. */
  lemma OnlyOneList<K, F>(m: map<Id, seq<Group<K, F>>>, e: Id, id: Id)
    requires UniqueIds(m) && e in m && Find(m[e], id) < |m[e]|
    ensures forall e' | e' in m && e' != e :: Find(m[e'], id) == |m[e']|
  {
  }

  /** The loop over a patrol's members that sets IsCook; it also reports whether the cook is among them. */
  method SetFlags(ms: seq<Member<bool>>, cook: Option<Id>) returns (r: seq<Member<bool>>, found: bool)
    ensures r == Reflag(ms, cook)
    ensures found <==> cook.Some? && Count(ms, cook.value) > 0
  {
    r := [];
    found := false;
    for a := 0 to |ms|
      invariant r == Reflag(ms, cook)[..a]
      invariant found <==> exists b | 0 <= b < a :: Some(ms[b].profile) == cook
    {
      if cook == Some(ms[a].profile) {
        found := true;
      }
      r := r + [Member(ms[a].profile, cook == Some(ms[a].profile))];
    }
    if cook.Some? {
      CountPositive(ms, cook.value);
    }
  }

  method IndexOfAdultPatrol(gs: seq<CookingPatrol>) returns (k: nat)
    ensures k == FirstAdult(gs)
  {
    for i := 0 to |gs|
      invariant forall j | 0 <= j < i :: !gs[j].kind
    {
      if gs[i].kind {
        return i;
      }
    }
    return |gs|;
  }

  /** Moves people into a patrol one by one, pulling each out of every patrol first. */
  method MoveAll(gs: seq<CookingPatrol>, k: nat, people: seq<Id>) returns (r: seq<CookingPatrol>)
    requires k < |gs|
    ensures r == PlaceAll(gs, k, people)
  {
    r := gs;
    for n := 0 to |people|
      invariant r == PlaceAll(gs, k, people[..n])
    {
      assert people[..n + 1][..n] == people[..n];
      r := SpliceEverywhere(r, people[n]);
      r := r[k := r[k].(members := r[k].members + [Member(people[n], false)])];
    }
    assert people[..|people|] == people;
  }

  method SeatAll(people: seq<Id>) returns (members: seq<Member<bool>>)
    ensures members == Seated(people)
  {
    members := [];
    for n := 0 to |people|
      invariant members == Seated(people)[..n]
    {
      members := members + [Member(people[n], false)];
    }
  }

  // ----- The repository -----

  class EventRepository {
    const profiles: map<Id, Profile>
    var events: map<Id, EventInfo>
    var attendees: map<Id, seq<Id>>
    var withdrawn: map<Id, seq<Id>>
    var duties: map<Id, seq<Assignment>>
    var patrols: map<Id, seq<CookingPatrol>>
    var tents: map<Id, seq<Tent>>

    constructor (profiles: map<Id, Profile>)
      ensures this.profiles == profiles
      ensures State() == Store(map[], map[], map[], map[], map[], map[])
    {
      this.profiles := profiles;
      events, attendees, withdrawn, duties, patrols, tents := map[], map[], map[], map[], map[], map[];
    }

    ghost function State(): Store
      reads this
    {
      Store(events, attendees, withdrawn, duties, patrols, tents)
    }

    method Create(newId: Id, info: EventInfo)
      modifies this
      ensures State() == Spec.CreateEvent(old(State()), newId, info)
    {
      events := events[newId := info];
    }

    method Delete(e: Id) returns (reply: Reply)
      modifies this
      ensures (State(), reply) == Spec.DeleteEvent(old(State()), e)
    {
      if e !in events {
        return Failed(EventNotFound);
      }
      events := events - {e};
      attendees := attendees - {e};
      withdrawn := withdrawn - {e};
      return Done;
    }

    method SignUp(e: Id, p: Id) returns (reply: Reply)
      modifies this
      ensures (State(), reply) == Spec.SignUp(profiles, old(State()), e, p)
    {
      if e !in events {
        return Failed(EventNotFound);
      }
      if p !in profiles {
        return Failed(ProfileNotFound);
      }
      var already := Contains(ListOf(attendees, e), p);
      if already {
        return Done;
      }
      attendees := attendees[e := ListOf(attendees, e) + [p]];
      return Done;
    }

    method Withdraw(e: Id, p: Id) returns (reply: Reply)
      modifies this
      ensures (State(), reply) == Spec.Withdraw(old(State()), e, p)
    {
      if e !in events {
        return Failed(EventNotFound);
      }
      var found := Contains(ListOf(attendees, e), p);
      if found {
        var rest := SpliceValue(attendees[e], p);
        attendees := attendees[e := rest];
        withdrawn := withdrawn[e := ListOf(withdrawn, e) + [p]];
      }
      return Done;
    }

    method CreateTent(e: Id, newId: Id) returns (reply: Reply)
      modifies this
      ensures (State(), reply) == Spec.CreateTent(old(State()), e, newId)
    {
      if e !in events {
        return Failed(EventNotFound);
      }
      var list := ListOf(tents, e);
      var highest := HighestNumber(TENT_PREFIX, list);
      var tent := Group(newId, NextName(TENT_PREFIX, Increment(highest)), (), []);
      tents := tents[e := list + [tent]];
      return Done;
    }

    method DeleteTent(t: Id) returns (reply: Reply)
      requires UniqueIds(tents)
      modifies this
      ensures (State(), reply) == Spec.DeleteTent(old(State()), t)
    {
      var where := EventOfGroup(tents, t);
      match where
      case None =>
        return Failed(TentNotFound);
      case Some(e) =>
        OnlyOneList(tents, e, t);
        var k := IndexOfGroup(tents[e], t);
        ghost var before := tents;
        tents := tents[e := tents[e][..k] + tents[e][k + 1..]];
        assert tents == DropGroupIn(before, t);
        return Done;
    }

    method AssignTentMember(e: Id, t: Id, p: Id) returns (reply: Reply)
      modifies this
      ensures (State(), reply) == Spec.AssignTentMember(profiles, old(State()), e, t, p)
    {
      if e !in events {
        return Failed(EventNotFound);
      }
      var list := ListOf(tents, e);
      var k := IndexOfGroup(list, t);
      if k == |list| {
        return Failed(TentNotFound);
      }
      if p !in profiles {
        return Failed(ProfileNotFound);
      }
      var attendee := Contains(ListOf(attendees, e), p);
      if !attendee {
        return Failed(NotSignedUp);
      }
      list := SpliceEverywhere(list, p);
      list := list[k := list[k].(members := list[k].members + [Member(p, ())])];
      tents := tents[e := list];
      return Done;
    }

    method RemoveTentMember(e: Id, p: Id)
      modifies this
      ensures State() == Spec.RemoveTentMember(old(State()), e, p)
    {
      if e in tents {
        var list := SpliceOnce(tents[e], p);
        tents := tents[e := list];
      }
    }

    method CreateCookingPatrol(e: Id, isAdult: bool, newId: Id) returns (reply: Reply)
      modifies this
      ensures (State(), reply) == Spec.CreateCookingPatrol(old(State()), e, isAdult, newId)
    {
      if e !in events {
        return Failed(EventNotFound);
      }
      var list := ListOf(patrols, e);
      var name := ADULTS_NAME;
      if isAdult {
        for i := 0 to |list|
          invariant forall j | 0 <= j < i :: !list[j].kind
        {
          if list[i].kind {
            return Failed(AdultPatrolExists);
          }
        }
      } else {
        var highest := HighestNumber(PATROL_PREFIX, list);
        name := NextName(PATROL_PREFIX, Increment(highest));
      }
      patrols := patrols[e := list + [Group(newId, name, isAdult, [])]];
      return Done;
    }

    method DeleteCookingPatrol(g: Id) returns (reply: Reply)
      requires UniqueIds(patrols)
      modifies this
      ensures (State(), reply) == Spec.DeleteCookingPatrol(old(State()), g)
    {
      var where := EventOfGroup(patrols, g);
      match where
      case None =>
        return Failed(PatrolNotFound);
      case Some(e) =>
        OnlyOneList(patrols, e, g);
        var k := IndexOfGroup(patrols[e], g);
        ghost var before := patrols;
        patrols := patrols[e := patrols[e][..k] + patrols[e][k + 1..]];
        assert patrols == DropGroupIn(before, g);
        return Done;
    }

    method AssignCookingPatrolMember(e: Id, g: Id, p: Id) returns (reply: Reply)
      modifies this
      ensures (State(), reply) == Spec.AssignCookingPatrolMember(profiles, old(State()), e, g, p)
    {
      if e !in events {
        return Failed(EventNotFound);
      }
      var list := ListOf(patrols, e);
      var k := IndexOfGroup(list, g);
      if k == |list| {
        return Failed(PatrolNotFound);
      }
      if p !in profiles {
        return Failed(ProfileNotFound);
      }
      var attendee := Contains(ListOf(attendees, e), p);
      if !attendee {
        return Failed(NotSignedUp);
      }
      list := SpliceEverywhere(list, p);
      list := list[k := list[k].(members := list[k].members + [Member(p, false)])];
      patrols := patrols[e := list];
      return Done;
    }

    method RemoveCookingPatrolMember(e: Id, p: Id)
      modifies this
      ensures State() == Spec.RemoveCookingPatrolMember(old(State()), e, p)
    {
      if e in patrols {
        var list := SpliceOnce(patrols[e], p);
        patrols := patrols[e := list];
      }
    }

    method SetCookingPatrolCook(e: Id, g: Id, p: Id) returns (reply: Reply)
      modifies this
      ensures (State(), reply) == Spec.SetCookingPatrolCook(old(State()), e, g, p)
    {
      var list := ListOf(patrols, e);
      var k := IndexOfGroup(list, g);
      if k == |list| {
        return Failed(NotAPatrolMember);
      }
      var members, found := SetFlags(list[k].members, Some(p));
      patrols := patrols[e := list[k := list[k].(members := members)]];
      return if found then Done else Failed(NotAPatrolMember);
    }

    method ClearCookingPatrolCook(g: Id)
      requires UniqueIds(patrols)
      modifies this
      ensures State() == Spec.ClearCookingPatrolCook(old(State()), g)
    {
      var where := EventOfGroup(patrols, g);
      ghost var before := patrols;
      if where.Some? {
        var e := where.value;
        OnlyOneList(patrols, e, g);
        var k := IndexOfGroup(patrols[e], g);
        var members, _ := SetFlags(patrols[e][k].members, None);
        patrols := patrols[e := patrols[e][k := patrols[e][k].(members := members)]];
      }
      forall e | e in before ensures patrols[e] == ReflagGroup(before[e], g, None) {
        assert where.None? ==> !Known(before, g);
      }
    }

    /** The loop over the attendees that picks out the adults. */
    method AttendingAdults(e: Id) returns (adults: seq<Id>)
      ensures adults == AdultsOf(profiles, ListOf(attendees, e))
    {
      var people := ListOf(attendees, e);
      adults := [];
      for i := 0 to |people|
        invariant adults == AdultsOf(profiles, people[..i])
      {
        assert people[..i + 1][..i] == people[..i];
        if people[i] in profiles && profiles[people[i]].memberType == Adult {
          adults := adults + [people[i]];
        }
      }
      assert people[..|people|] == people;
    }

    method UpdateWithCooking(e: Id, info: EventInfo, prevCooking: bool, newId: Id) returns (reply: Reply)
      modifies this
      ensures (State(), reply) == Spec.UpdateWithCooking(profiles, old(State()), e, info, prevCooking, newId)
    {
      if e !in events {
        return Failed(EventNotFound);
      }
      events := events[e := info];
      if prevCooking == info.cooking {
        return Done;
      }
      if !info.cooking {
        patrols := patrols - {e};
        return Done;
      }
      var adults := AttendingAdults(e);
      var list := ListOf(patrols, e);
      var k := IndexOfAdultPatrol(list);
      if k < |list| {
        list := MoveAll(list, k, adults);
      } else {
        var members := SeatAll(adults);
        list := list + [Group(newId, ADULTS_NAME, true, members)];
      }
      patrols := patrols[e := list];
      return Done;
    }

    method AssignResponsibility(e: Id, p: Id, r: Responsibility) returns (reply: Reply)
      modifies this
      ensures (State(), reply) == Spec.AssignResponsibility(old(State()), e, p, r)
    {
      if e !in events {
        return Failed(EventNotFound);
      }
      var list := ListOf(duties, e);
      if IsSingleton(r) {
        for i := 0 to |list|
          invariant forall j | 0 <= j < i :: list[j].responsibility != r
        {
          if list[i].responsibility == r {
            assert i == Holder(list, r);
            if list[i].profile == p {
              assert list[i] == Assignment(p, r);
              return Done;
            }
            return Failed(SingletonConflict(list[i].profile));
          }
        }
      }
      for i := 0 to |list|
        invariant Assignment(p, r) !in list[..i]
      {
        if list[i].profile == p && list[i].responsibility == r {
          assert list[i] == Assignment(p, r);
          return Done;
        }
      }
      duties := duties[e := list + [Assignment(p, r)]];
      return Done;
    }

    method RemoveResponsibility(e: Id, p: Id, r: Responsibility)
      modifies this
      ensures State() == Spec.RemoveResponsibility(old(State()), e, p, r)
    {
      if e in duties {
        var list := SpliceValue(duties[e], Assignment(p, r));
        duties := duties[e := list];
      }
    }

    /** Adding a driver is an upsert of the driver row, if there is the attendance row that it refers to. */
    method AddDriver(e: Id, p: Id) returns (reply: Reply)
      modifies this
      ensures (State(), reply) == Spec.AddDriver(old(State()), e, p)
    {
      var attends := Contains(ListOf(attendees, e), p);
      var left := Contains(ListOf(withdrawn, e), p);
      if !attends && !left {
        return Failed(NotSignedUp);
      }
      reply := AssignResponsibility(e, p, Driver);
    }

    method RemoveDriver(e: Id, p: Id)
      modifies this
      ensures State() == Spec.RemoveDriver(old(State()), e, p)
    {
      RemoveResponsibility(e, p, Driver);
    }
  }
}
