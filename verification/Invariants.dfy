/** What every repository step keeps true of an event's tents and cooking patrols. */
module GroupInvariants {
  import opened Common
  import opened Names
  import opened Groups
  import opened StoreSpec

  // ----- Names are numbered and distinct -----

  /** The name is the printed form of a positive number. */
  predicate Numbered(prefix: string, name: string) {
    match Number(prefix, name)
    case Some(n) => 1 <= n <= INT_MAX && name == NextName(prefix, n)
    case None => false
  }

  ghost predicate DistinctNames<K, F>(gs: seq<Group<K, F>>) {
    forall i, j | 0 <= i < j < |gs| :: gs[i].name != gs[j].name
  }

  lemma HighestOfLast<K, F>(prefix: string, gs: seq<Group<K, F>>)
    requires gs != []
    ensures Highest(prefix, gs[..|gs| - 1]) <= Highest(prefix, gs)
    ensures Number(prefix, gs[|gs| - 1].name).Some? ==> Number(prefix, gs[|gs| - 1].name).value <= Highest(prefix, gs)
  {
  }

  lemma {:induction false} HighestIsHighest<K, F>(prefix: string, gs: seq<Group<K, F>>, i: nat)
    requires i < |gs| && Number(prefix, gs[i].name).Some?
    ensures Number(prefix, gs[i].name).value <= Highest(prefix, gs)
  {
    HighestOfLast(prefix, gs);
    if i < |gs| - 1 {
      HighestIsHighest(prefix, gs[..|gs| - 1], i);
    }
  }

  lemma {:induction false} HighestNonNegative<K, F>(prefix: string, gs: seq<Group<K, F>>)
    ensures Highest(prefix, gs) >= 0
  {
    if gs != [] {
      HighestNonNegative(prefix, gs[..|gs| - 1]);
    }
  }

  /** A new name carries a number above every number in use, so it is new. */
  lemma FreshNameIsNew<K, F>(prefix: string, gs: seq<Group<K, F>>)
    requires Highest(prefix, gs) < INT_MAX
    ensures Numbered(prefix, FreshName(prefix, gs))
    ensures forall i | 0 <= i < |gs| && Number(prefix, gs[i].name).Some? ::
              Number(prefix, gs[i].name).value < Number(prefix, FreshName(prefix, gs)).value
    ensures forall i | 0 <= i < |gs| :: gs[i].name != FreshName(prefix, gs)
  {
    HighestNonNegative(prefix, gs);
    var n := Highest(prefix, gs) + 1;
    NumberInvertsNextName(prefix, n);
    forall i | 0 <= i < |gs| && Number(prefix, gs[i].name).Some? ensures Number(prefix, gs[i].name).value < n {
      HighestIsHighest(prefix, gs, i);
    }
  }

  // ----- Identifiers stay unique -----

  lemma UniqueIdsLocal<K, F>(m: map<Id, seq<Group<K, F>>>, e: Id)
    requires UniqueIds(m)
    ensures DistinctIds(ListOf(m, e))
  {
  }

  /** Replacing a list by one with the same identifiers in the same places. */
  lemma UniqueIdsSameShape<K, F>(m: map<Id, seq<Group<K, F>>>, e: Id, gs: seq<Group<K, F>>)
    requires UniqueIds(m) && e in m && |gs| == |m[e]|
    requires forall i | 0 <= i < |gs| :: gs[i].id == m[e][i].id
    ensures UniqueIds(m[e := gs])
  {
  }

  lemma UniqueIdsAppend<K, F>(m: map<Id, seq<Group<K, F>>>, e: Id, g: Group<K, F>)
    requires UniqueIds(m) && !Known(m, g.id)
    ensures UniqueIds(m[e := ListOf(m, e) + [g]])
  {
  }

  /** Where an entry of the shortened list stood before the group was dropped. */
  function OldIndex<K, F>(gs: seq<Group<K, F>>, id: Id, i: nat): nat {
    if i < Find(gs, id) then i else i + 1
  }

  lemma DropGroupEntry<K, F>(gs: seq<Group<K, F>>, id: Id, i: nat)
    requires Find(gs, id) < |gs| && i < |DropGroup(gs, id)|
    ensures OldIndex(gs, id, i) < |gs| && DropGroup(gs, id)[i] == gs[OldIndex(gs, id, i)]
  {
    hide Find;
    var k := Find(gs, id);
    var left, right := gs[..k], gs[k + 1..];
    assert DropGroup(gs, id) == left + right;
    if i < k {
      assert (left + right)[i] == left[i];
    } else {
      assert (left + right)[i] == right[i - k];
    }
  }

  lemma UniqueIdsDropGroup<K, F>(m: map<Id, seq<Group<K, F>>>, id: Id)
    requires UniqueIds(m)
    ensures UniqueIds(DropGroupIn(m, id))
  {
    var m': map<Id, seq<Group<K, F>>> := DropGroupIn(m, id);
    forall a, b, i, j | a in m' && b in m' && 0 <= i < |m'[a]| && 0 <= j < |m'[b]| && m'[a][i].id == m'[b][j].id
      ensures a == b && i == j
    {
      var i', j' := i, j;
      if Find(m[a], id) < |m[a]| {
        DropGroupEntry(m[a], id, i);
        i' := OldIndex(m[a], id, i);
      }
      if Find(m[b], id) < |m[b]| {
        DropGroupEntry(m[b], id, j);
        j' := OldIndex(m[b], id, j);
      }
      assert m[a][i'].id == m[b][j'].id;
    }
  }

  // ----- Properties of every member -----

  /** Everybody in the groups is among the given people. */
  ghost predicate Within<K, F>(gs: seq<Group<K, F>>, people: seq<Id>) {
    forall i, a | 0 <= i < |gs| && 0 <= a < |gs[i].members| :: gs[i].members[a].profile in people
  }

  lemma DropKeepsMembers<F>(ms: seq<Member<F>>, p: Id, m: Member<F>)
    requires m in DropFirst(ms, p)
    ensures m in ms
  {
  }

  lemma PullOutMembers<K, F>(gs: seq<Group<K, F>>, p: Id, i: nat, a: nat)
    requires Exclusive(gs) && i < |gs| && a < |PullOut(gs, p)[i].members|
    ensures PullOut(gs, p)[i].members[a] in gs[i].members
    ensures PullOut(gs, p)[i].members[a].profile != p
  {
    var ms := PullOut(gs, p)[i].members;
    DropKeepsMembers(gs[i].members, p, ms[a]);
    PullOutExclusive(gs, p);
    assert !Has(PullOut(gs, p)[i], p);
    CountPositive(ms, p);
  }

  lemma PlaceWithin<K, F>(gs: seq<Group<K, F>>, k: nat, p: Id, flag: F, people: seq<Id>)
    requires Exclusive(gs) && k < |gs| && Within(gs, people) && p in people
    ensures Within(PlaceAt(gs, k, p, flag), people)
  {
    var pulled := PullOut(gs, p);
    forall i, a | 0 <= i < |gs| && 0 <= a < |PlaceAt(gs, k, p, flag)[i].members|
      ensures PlaceAt(gs, k, p, flag)[i].members[a].profile in people
    {
      if a < |pulled[i].members| {
        PullOutMembers(gs, p, i, a);
      }
    }
  }

  /** After a profile is removed, the remaining members are among the remaining people. */
  lemma RemoveWithin<K, F>(gs: seq<Group<K, F>>, p: Id, people: seq<Id>, rest: seq<Id>)
    requires Exclusive(gs) && Within(gs, people)
    requires forall q | q in people && q != p :: q in rest
    ensures Within(PullFirst(gs, p), rest)
    ensures forall i | 0 <= i < |PullFirst(gs, p)| :: !Has(PullFirst(gs, p)[i], p)
  {
    FirstMatchSuffices(gs, p);
    PullOutExclusive(gs, p);
    forall i, a | 0 <= i < |gs| && 0 <= a < |PullOut(gs, p)[i].members|
      ensures PullOut(gs, p)[i].members[a].profile in rest
    {
      PullOutMembers(gs, p, i, a);
    }
  }

  lemma CountTwo<F>(ms: seq<Member<F>>, a: nat, b: nat)
    requires a < b < |ms| && ms[a].profile == ms[b].profile
    ensures Count(ms, ms[a].profile) >= 2
  {
    var p := ms[a].profile;
    if a == 0 {
      assert ms[1..][b - 1].profile == p;
      CountPositive(ms[1..], p);
    } else {
      CountTwo(ms[1..], a - 1, b - 1);
    }
  }
}

/** Cooking patrols: one patrol per profile, one cook per patrol, one adult patrol, no adult elsewhere. */
module PatrolInvariants {
  import opened Common
  import opened Profiles
  import opened Names
  import opened Groups
  import opened StoreSpec
  import opened GroupInvariants

  ghost predicate OneCook(g: CookingPatrol) {
    forall a, b | 0 <= a < b < |g.members| :: !(g.members[a].flag && g.members[b].flag)
  }

  ghost predicate AdultsOnlyInAdultPatrol(profiles: map<Id, Profile>, g: CookingPatrol) {
    g.kind || forall a | 0 <= a < |g.members| :: !IsAdultIn(profiles, g.members[a].profile)
  }

  ghost predicate OneAdultPatrol(gs: seq<CookingPatrol>) {
    forall i, j | 0 <= i < j < |gs| :: !(gs[i].kind && gs[j].kind)
  }

  predicate WellNamed(g: CookingPatrol) {
    if g.kind then g.name == ADULTS_NAME else Numbered(PATROL_PREFIX, g.name)
  }

  lemma YouthNameIsNotAdults(name: string)
    requires Numbered(PATROL_PREFIX, name)
    ensures name != ADULTS_NAME
  {
  }

  /** The names a new patrol may be given are not in use. */
  lemma NewPatrolName(profiles: map<Id, Profile>, gs: seq<CookingPatrol>, isAdult: bool, name: string)
    requires PatrolsOk(profiles, gs)
    requires if isAdult then !HasAdultPatrol(gs) && name == ADULTS_NAME
             else Highest(PATROL_PREFIX, gs) < INT_MAX && name == FreshName(PATROL_PREFIX, gs)
    ensures if isAdult then name == ADULTS_NAME else Numbered(PATROL_PREFIX, name)
    ensures forall i | 0 <= i < |gs| :: gs[i].name != name
  {
    if isAdult {
      forall i | 0 <= i < |gs| ensures gs[i].name != name {
        YouthNameIsNotAdults(gs[i].name);
      }
    } else {
      FreshNameIsNew(PATROL_PREFIX, gs);
    }
  }

  ghost predicate PatrolsOk(profiles: map<Id, Profile>, gs: seq<CookingPatrol>) {
    && Exclusive(gs)
    && OneAdultPatrol(gs)
    && DistinctNames(gs)
    && forall i | 0 <= i < |gs| :: OneCook(gs[i]) && AdultsOnlyInAdultPatrol(profiles, gs[i]) && WellNamed(gs[i])
  }

  lemma PulledPatrol(profiles: map<Id, Profile>, g: CookingPatrol, p: Id)
    requires OneCook(g) && AdultsOnlyInAdultPatrol(profiles, g)
    ensures OneCook(g.(members := DropFirst(g.members, p)))
    ensures AdultsOnlyInAdultPatrol(profiles, g.(members := DropFirst(g.members, p)))
  {
    var x := DropFirstSplice(g.members, p);
  }

  lemma PullOutOk(profiles: map<Id, Profile>, gs: seq<CookingPatrol>, p: Id)
    requires PatrolsOk(profiles, gs)
    ensures PatrolsOk(profiles, PullOut(gs, p))
  {
    PullOutExclusive(gs, p);
    forall i | 0 <= i < |gs|
      ensures OneCook(PullOut(gs, p)[i]) && AdultsOnlyInAdultPatrol(profiles, PullOut(gs, p)[i])
    {
      PulledPatrol(profiles, gs[i], p);
    }
  }

  lemma PlaceOk(profiles: map<Id, Profile>, gs: seq<CookingPatrol>, k: nat, p: Id)
    requires PatrolsOk(profiles, gs) && k < |gs|
    requires gs[k].kind || !IsAdultIn(profiles, p)
    ensures PatrolsOk(profiles, PlaceAt(gs, k, p, false))
  {
    PullOutOk(profiles, gs, p);
    PlaceAtExclusive(gs, k, p, false);
    var pulled, after := PullOut(gs, p), PlaceAt(gs, k, p, false);
    assert forall i | 0 <= i < |gs| && i != k :: after[i] == pulled[i];
    assert OneCook(after[k]) by {
      assert OneCook(pulled[k]);
    }
    assert AdultsOnlyInAdultPatrol(profiles, after[k]) by {
      assert AdultsOnlyInAdultPatrol(profiles, pulled[k]);
    }
  }

  lemma DropGroupOk(profiles: map<Id, Profile>, gs: seq<CookingPatrol>, id: Id)
    requires PatrolsOk(profiles, gs)
    ensures PatrolsOk(profiles, DropGroup(gs, id))
  {
    DropGroupExclusive(gs, id);
    hide Exclusive, OneCook, AdultsOnlyInAdultPatrol, WellNamed, DropGroup, Find;
    var after := DropGroup(gs, id);
    if Find(gs, id) == |gs| {
      NothingDropped(gs, id);
    } else {
      forall i | 0 <= i < |after|
        ensures OneCook(after[i]) && AdultsOnlyInAdultPatrol(profiles, after[i]) && WellNamed(after[i])
      {
        DropGroupEntry(gs, id, i);
      }
      forall i, j | 0 <= i < j < |after| ensures !(after[i].kind && after[j].kind) && after[i].name != after[j].name {
        DropGroupEntry(gs, id, i);
        DropGroupEntry(gs, id, j);
      }
    }
  }

  lemma NothingDropped(gs: seq<CookingPatrol>, id: Id)
    requires Find(gs, id) == |gs|
    ensures DropGroup(gs, id) == gs
  {
  }

  /** Naming a cook leaves one cook because no member is listed twice. */
  lemma ReflagOk(profiles: map<Id, Profile>, gs: seq<CookingPatrol>, id: Id, only: Option<Id>)
    requires PatrolsOk(profiles, gs)
    ensures PatrolsOk(profiles, ReflagGroup(gs, id, only))
  {
    ReflagExclusive(gs, id, only);
    var k := Find(gs, id);
    if k < |gs| {
      var ms, after := gs[k].members, Reflag(gs[k].members, only);
      forall a, b | 0 <= a < b < |ms| ensures !(after[a].flag && after[b].flag) {
        if after[a].flag && after[b].flag {
          CountTwo(ms, a, b);
          assert false;
        }
      }
    }
  }

  lemma AppendEmptyOk(profiles: map<Id, Profile>, gs: seq<CookingPatrol>, g: CookingPatrol)
    requires PatrolsOk(profiles, gs) && g.members == []
    requires g.kind ==> !HasAdultPatrol(gs)
    requires WellNamed(g) && forall i | 0 <= i < |gs| :: gs[i].name != g.name
    ensures PatrolsOk(profiles, gs + [g])
  {
    AppendExclusive(gs, g);
  }

  lemma {:induction false} PlaceAllOk(profiles: map<Id, Profile>, gs: seq<CookingPatrol>, k: nat, people: seq<Id>)
    requires PatrolsOk(profiles, gs) && k < |gs| && gs[k].kind
    ensures PatrolsOk(profiles, PlaceAll(gs, k, people))
    ensures forall i | 0 <= i < |gs| ::
              PlaceAll(gs, k, people)[i].kind == gs[i].kind && PlaceAll(gs, k, people)[i].id == gs[i].id
  {
    if people != [] {
      var n := |people| - 1;
      PlaceAllOk(profiles, gs, k, people[..n]);
      PlaceOk(profiles, PlaceAll(gs, k, people[..n]), k, people[n]);
    }
  }

  /** Once seated in group k, moving others there leaves a profile seated. */
  lemma {:induction false} PlaceAllSeats(profiles: map<Id, Profile>, gs: seq<CookingPatrol>, k: nat, people: seq<Id>,
                                         p: Id)
    requires PatrolsOk(profiles, gs) && k < |gs| && gs[k].kind && p in people
    ensures Has(PlaceAll(gs, k, people)[k], p)
  {
    var n := |people| - 1;
    var before := PlaceAll(gs, k, people[..n]);
    PlaceAllOk(profiles, gs, k, people[..n]);
    var last := people[n];
    PullOutExclusive(before, last);
    CountAppend(PullOut(before, last)[k].members, Member(last, false), p);
    if p != last {
      assert p in people[..n];
      PlaceAllSeats(profiles, gs, k, people[..n], p);
      PullOutCount(before, last, k, p);
    }
  }

  lemma {:induction false} SeatedCount(people: seq<Id>, p: Id)
    requires Distinct(people)
    ensures Count(Seated(people), p) == if p in people then 1 else 0
  {
    if people != [] {
      var rest := people[1..];
      assert Seated(people)[1..] == Seated(rest);
      assert people == [people[0]] + rest;
      assert people[0] !in rest;
      SeatedCount(rest, p);
    }
  }

  lemma NobodyAdult(profiles: map<Id, Profile>, g: CookingPatrol, p: Id)
    requires !g.kind && AdultsOnlyInAdultPatrol(profiles, g) && IsAdultIn(profiles, p)
    ensures !Has(g, p)
  {
    CountPositive(g.members, p);
  }

  lemma NewAdultPatrolOk(profiles: map<Id, Profile>, gs: seq<CookingPatrol>, adults: seq<Id>, newId: Id)
    requires PatrolsOk(profiles, gs) && Distinct(adults) && !HasAdultPatrol(gs)
    requires forall p | p in adults :: IsAdultIn(profiles, p)
    ensures PatrolsOk(profiles, gs + [Group(newId, ADULTS_NAME, true, Seated(adults))])
    ensures forall p | p in adults :: Count(Seated(adults), p) == 1
  {
    var g := Group(newId, ADULTS_NAME, true, Seated(adults));
    forall p ensures Count(g.members, p) == if p in adults then 1 else 0 {
      SeatedCount(adults, p);
    }
    forall i, p | 0 <= i < |gs| && Has(g, p) ensures !Has(gs[i], p) {
      NobodyAdult(profiles, gs[i], p);
    }
    AppendExclusive(gs, g);
    NewPatrolName(profiles, gs, true, ADULTS_NAME);
    assert OneCook(g);
  }

  /** Switching cooking on keeps the invariant and seats every given adult in the adult patrol. */
  lemma EnableCookingOk(profiles: map<Id, Profile>, gs: seq<CookingPatrol>, adults: seq<Id>, newId: Id)
    requires PatrolsOk(profiles, gs) && Distinct(adults)
    requires forall p | p in adults :: IsAdultIn(profiles, p)
    ensures PatrolsOk(profiles, EnableCooking(gs, adults, newId))
    ensures forall p | p in adults :: InAdultPatrol(EnableCooking(gs, adults, newId), p)
  {
    var k := FirstAdult(gs);
    var after := EnableCooking(gs, adults, newId);
    if k < |gs| {
      PlaceAllOk(profiles, gs, k, adults);
      forall p | p in adults ensures InAdultPatrol(after, p) {
        PlaceAllSeats(profiles, gs, k, adults, p);
        assert after[k].kind && Has(after[k], p);
      }
    } else {
      NewAdultPatrolOk(profiles, gs, adults, newId);
      assert after[k].kind && after[k].members == Seated(adults);
    }
  }

  ghost predicate InAdultPatrol(gs: seq<CookingPatrol>, p: Id) {
    exists i | 0 <= i < |gs| :: gs[i].kind && Has(gs[i], p)
  }
}
