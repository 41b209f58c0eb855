/** The nested lists of the repository refine the two member tables of the database, keyed by event and profile
    (internal/storage/postgres/event_repository.go). */
module TableRefinement {
  import opened Common
  import opened Profiles
  import opened Groups
  import opened GroupInvariants
  import opened StoreSpec
  import opened Logistics
  import PI = PatrolInvariants
  import TI = TentInvariants

  /** One row (group, flag) per event and profile. */
  type Rows<F> = map<(Id, Id), (Id, F)>

  ghost function KeysOf<K, F>(m: map<Id, seq<Group<K, F>>>): set<(Id, Id)> {
    set e, p | e in m && p in TableOf(m[e]) :: (e, p)
  }

  ghost function RowsOf<K, F>(m: map<Id, seq<Group<K, F>>>): Rows<F> {
    map k | k in KeysOf(m) :: TableOf(m[k.0])[k.1]
  }

  /** The table has, for this event and profile, the row that the lists hold. */
  ghost predicate Matches<K, F>(rows: Rows<F>, m: map<Id, seq<Group<K, F>>>, e: Id, p: Id) {
    && ((e, p) in rows <==> p in TableOf(ListOf(m, e)))
    && ((e, p) in rows ==> rows[(e, p)] == TableOf(ListOf(m, e))[p])
  }

  lemma RowsMatch<K, F>(m: map<Id, seq<Group<K, F>>>, e: Id, p: Id)
    ensures Matches(RowsOf(m), m, e, p)
  {
    if e !in m {
      NoRows<K, F>(p);
    }
  }

  lemma NoRows<K, F>(p: Id)
    ensures var none: seq<Group<K, F>> := []; p !in TableOf(none)
  {
  }

  lemma SameRow<K, F>(m: map<Id, seq<Group<K, F>>>, rows: Rows<F>, k: (Id, Id))
    requires Matches(rows, m, k.0, k.1)
    ensures k in RowsOf(m) <==> k in rows
    ensures k in rows ==> RowsOf(m)[k] == rows[k]
  {
    RowsMatch(m, k.0, k.1);
    assert k == (k.0, k.1);
  }

  lemma RowsAre<K, F>(m: map<Id, seq<Group<K, F>>>, rows: Rows<F>)
    requires forall e, p :: Matches(rows, m, e, p)
    ensures RowsOf(m) == rows
  {
    hide RowsOf, Matches;
    forall k: (Id, Id) ensures k in RowsOf(m) <==> k in rows
                       ensures k in rows ==> RowsOf(m)[k] == rows[k]
    {
      assert Matches(rows, m, k.0, k.1);
      SameRow(m, rows, k);
    }
  }

  // ----- The statements of the database form -----

  function UpsertRow<F>(rows: Rows<F>, e: Id, p: Id, g: Id, flag: F): Rows<F> {
    rows[(e, p) := (g, flag)]
  }

  function DeleteAt<F>(rows: Rows<F>, e: Id, p: Id): Rows<F> {
    rows - {(e, p)}
  }

  /** UPDATE ... SET is_cook = FALSE WHERE patrol_id = g, over all events. */
  function ClearCooks(rows: Rows<bool>, g: Id): Rows<bool> {
    map k | k in rows :: if rows[k].0 == g then (g, false) else rows[k]
  }

  /** UPDATE ... SET is_cook = FALSE WHERE event_id = e AND patrol_id = g, then TRUE for the profile's row. */
  function SetCook(rows: Rows<bool>, e: Id, g: Id, p: Id): Rows<bool> {
    map k | k in rows :: if k.0 == e && rows[k].0 == g then (g, k.1 == p) else rows[k]
  }

  /** DELETE of a group, whose member rows the foreign key takes along. */
  function DeleteGroupOf<F>(rows: Rows<F>, g: Id): Rows<F> {
    map k | k in rows && rows[k].0 != g :: rows[k]
  }

  // ----- One list at a time -----

  /** Changing the list of one event changes the rows of that event as the list's own table. */
  lemma OneListChanged<K, F>(m: map<Id, seq<Group<K, F>>>, e: Id, gs: seq<Group<K, F>>, x: Id, p: Id)
    ensures Matches(RowsOf(m[e := gs]), m[e := gs], x, p)
    ensures x != e ==> Matches(RowsOf(m), m[e := gs], x, p)
    ensures Matches(RowsOf(m), m, x, p)
  {
    RowsMatch(m[e := gs], x, p);
    RowsMatch(m, x, p);
  }

  lemma PlacedRows<K, F>(m: map<Id, seq<Group<K, F>>>, e: Id, k: nat, p: Id, flag: F)
    requires Exclusive(ListOf(m, e)) && k < |ListOf(m, e)|
    ensures RowsOf(m[e := PlaceAt(ListOf(m, e), k, p, flag)]) == UpsertRow(RowsOf(m), e, p, ListOf(m, e)[k].id, flag)
  {
    hide RowsOf, TableOf, PlaceAt, Exclusive;
    var gs := ListOf(m, e);
    var after := m[e := PlaceAt(gs, k, p, flag)];
    PlaceRefinesUpsert(gs, k, p, flag);
    forall x, q ensures Matches(UpsertRow(RowsOf(m), e, p, gs[k].id, flag), after, x, q) {
      OneListChanged(m, e, PlaceAt(gs, k, p, flag), x, q);
    }
    RowsAre(after, UpsertRow(RowsOf(m), e, p, gs[k].id, flag));
  }

  lemma RemovedRows<K, F>(m: map<Id, seq<Group<K, F>>>, e: Id, p: Id)
    requires Exclusive(ListOf(m, e)) && e in m
    ensures RowsOf(m[e := PullFirst(m[e], p)]) == DeleteAt(RowsOf(m), e, p)
  {
    hide RowsOf, TableOf, PullFirst, Exclusive;
    var after := m[e := PullFirst(m[e], p)];
    RemoveRefinesDelete(m[e], p);
    forall x, q ensures Matches(DeleteAt(RowsOf(m), e, p), after, x, q) {
      OneListChanged(m, e, PullFirst(m[e], p), x, q);
    }
    RowsAre(after, DeleteAt(RowsOf(m), e, p));
  }

  lemma NothingToRemove<K, F>(m: map<Id, seq<Group<K, F>>>, e: Id, p: Id)
    requires e !in m
    ensures RowsOf(m) == DeleteAt(RowsOf(m), e, p)
  {
    RowsMatch(m, e, p);
    NoRows<K, F>(p);
  }

  ghost predicate WellListed<K, F>(m: map<Id, seq<Group<K, F>>>) {
    UniqueIds(m) && forall e | e in m :: Exclusive(m[e])
  }

  lemma WellListedAt<K, F>(m: map<Id, seq<Group<K, F>>>, e: Id)
    requires WellListed(m)
    ensures Exclusive(ListOf(m, e)) && DistinctIds(ListOf(m, e))
  {
    UniqueIdsLocal(m, e);
  }

  lemma DroppedRows<K, F>(m: map<Id, seq<Group<K, F>>>, g: Id)
    requires WellListed(m)
    ensures RowsOf(DropGroupIn(m, g)) == DeleteGroupOf(RowsOf(m), g)
  {
    hide RowsOf, TableOf, DropGroup, WellListed, Exclusive, DistinctIds;
    var after := DropGroupIn(m, g);
    forall x, q ensures Matches(DeleteGroupOf(RowsOf(m), g), after, x, q) {
      RowsMatch(m, x, q);
      if x in m {
        WellListedAt(m, x);
        DropGroupRefinesDelete(m[x], g);
      } else {
        NoRows<K, F>(q);
      }
    }
    RowsAre(after, DeleteGroupOf(RowsOf(m), g));
  }

  lemma ClearedRows(m: map<Id, seq<CookingPatrol>>, g: Id)
    requires WellListed(m)
    ensures RowsOf(ClearCookIn(m, g)) == ClearCooks(RowsOf(m), g)
  {
    hide RowsOf, TableOf, ReflagGroup, WellListed, Exclusive, DistinctIds;
    var after := ClearCookIn(m, g);
    forall x, q ensures Matches(ClearCooks(RowsOf(m), g), after, x, q) {
      RowsMatch(m, x, q);
      if x in m {
        WellListedAt(m, x);
        ClearRefinesUpdate(m[x], g);
      } else {
        NoRows<bool, bool>(q);
      }
    }
    RowsAre(after, ClearCooks(RowsOf(m), g));
  }

  lemma CookedRow(t: Table<bool>, g: Id, p: Id, q: Id)
    ensures var after := RaiseFlag(ClearFlags(t, g), g, p);
            && (q in after <==> q in t)
            && (q in t ==> after[q] == if t[q].0 == g then (g, q == p) else t[q])
  {
  }

  lemma CookedRows(m: map<Id, seq<CookingPatrol>>, e: Id, g: Id, p: Id)
    requires WellListed(m)
    ensures RowsOf(m[e := ReflagGroup(ListOf(m, e), g, Some(p))]) == SetCook(RowsOf(m), e, g, p)
  {
    hide RowsOf, RaiseFlag, ClearFlags, TableOf, ReflagGroup, WellListed, Exclusive, DistinctIds;
    var gs := ListOf(m, e);
    var cooked := ReflagGroup(gs, g, Some(p));
    WellListedAt(m, e);
    ReflagRefinesUpdates(gs, g, p);
    var rows, after := SetCook(RowsOf(m), e, g, p), m[e := cooked];
    forall x, q ensures Matches(rows, after, x, q) {
      OneListChanged(m, e, cooked, x, q);
      CookedRow(TableOf(gs), g, p, q);
    }
    RowsAre(after, rows);
  }

  lemma UnknownStays<K, F>(m: map<Id, seq<Group<K, F>>>, g: Id)
    requires !Known(m, g)
    ensures DropGroupIn(m, g) == m
  {
    forall e | e in m ensures DropGroup(m[e], g) == m[e] {
      assert !(Find(m[e], g) < |m[e]|);
    }
  }

  // ----- The repository operations -----

  lemma ListsAreWell(profiles: map<Id, Profile>, s: Store)
    requires ListsOk(profiles, s)
    ensures WellListed(s.tents) && WellListed(s.patrols)
  {
    forall e | e in s.tents ensures Exclusive(s.tents[e]) {
      assert TI.TentsOk(profiles, s.tents[e]);
    }
    forall e | e in s.patrols ensures Exclusive(s.patrols[e]) {
      assert PI.PatrolsOk(profiles, s.patrols[e]);
    }
  }

  /** The group belongs to the event: the guard of the database's inserts. */
  predicate InEvent<K, F>(m: map<Id, seq<Group<K, F>>>, e: Id, g: Id) {
    Find(ListOf(m, e), g) < |ListOf(m, e)|
  }

  /** Assigning an attendee upserts one row, if the tent belongs to the event, and is refused otherwise. */
  lemma AssignTentMemberRefines(profiles: map<Id, Profile>, s: Store, e: Id, t: Id, p: Id)
    requires ListsOk(profiles, s) && e in s.events && p in profiles && p in ListOf(s.attendees, e)
    ensures var (s', reply) := AssignTentMember(profiles, s, e, t, p);
            && (reply == Done <==> InEvent(s.tents, e, t))
            && s' == s.(tents := s'.tents)
            && RowsOf(s'.tents) == if reply == Done then UpsertRow(RowsOf(s.tents), e, p, t, ()) else RowsOf(s.tents)
  {
    ListsAreWell(profiles, s);
    WellListedAt(s.tents, e);
    if InEvent(s.tents, e, t) {
      PlacedRows(s.tents, e, Find(ListOf(s.tents, e), t), p, ());
    }
  }

  lemma RemoveTentMemberRefines(profiles: map<Id, Profile>, s: Store, e: Id, p: Id)
    requires ListsOk(profiles, s)
    ensures var s' := RemoveTentMember(s, e, p);
            s' == s.(tents := s'.tents) && RowsOf(s'.tents) == DeleteAt(RowsOf(s.tents), e, p)
  {
    ListsAreWell(profiles, s);
    WellListedAt(s.tents, e);
    if e in s.tents {
      RemovedRows(s.tents, e, p);
    } else {
      NothingToRemove(s.tents, e, p);
    }
  }

  lemma DeleteTentRefines(profiles: map<Id, Profile>, s: Store, t: Id)
    requires ListsOk(profiles, s)
    ensures var s' := DeleteTent(s, t).0;
            s' == s.(tents := s'.tents) && RowsOf(s'.tents) == DeleteGroupOf(RowsOf(s.tents), t)
  {
    ListsAreWell(profiles, s);
    DroppedRows(s.tents, t);
    if !Known(s.tents, t) {
      UnknownStays(s.tents, t);
    }
  }

  lemma AssignPatrolMemberRefines(profiles: map<Id, Profile>, s: Store, e: Id, g: Id, p: Id)
    requires ListsOk(profiles, s) && e in s.events && p in profiles && p in ListOf(s.attendees, e)
    ensures var (s', reply) := AssignCookingPatrolMember(profiles, s, e, g, p);
            && (reply == Done <==> InEvent(s.patrols, e, g))
            && s' == s.(patrols := s'.patrols)
            && RowsOf(s'.patrols) ==
               if reply == Done then UpsertRow(RowsOf(s.patrols), e, p, g, false) else RowsOf(s.patrols)
  {
    ListsAreWell(profiles, s);
    WellListedAt(s.patrols, e);
    if InEvent(s.patrols, e, g) {
      PlacedRows(s.patrols, e, Find(ListOf(s.patrols, e), g), p, false);
    }
  }

  lemma RemovePatrolMemberRefines(profiles: map<Id, Profile>, s: Store, e: Id, p: Id)
    requires ListsOk(profiles, s)
    ensures var s' := RemoveCookingPatrolMember(s, e, p);
            s' == s.(patrols := s'.patrols) && RowsOf(s'.patrols) == DeleteAt(RowsOf(s.patrols), e, p)
  {
    ListsAreWell(profiles, s);
    WellListedAt(s.patrols, e);
    if e in s.patrols {
      RemovedRows(s.patrols, e, p);
    } else {
      NothingToRemove(s.patrols, e, p);
    }
  }

  lemma DeletePatrolRefines(profiles: map<Id, Profile>, s: Store, g: Id)
    requires ListsOk(profiles, s)
    ensures var s' := DeleteCookingPatrol(s, g).0;
            s' == s.(patrols := s'.patrols) && RowsOf(s'.patrols) == DeleteGroupOf(RowsOf(s.patrols), g)
  {
    ListsAreWell(profiles, s);
    DroppedRows(s.patrols, g);
    if !Known(s.patrols, g) {
      UnknownStays(s.patrols, g);
    }
  }

  /** Clearing a cook runs over all events and changes the rows of the one patrol. */
  lemma ClearCookRefines(profiles: map<Id, Profile>, s: Store, g: Id)
    requires ListsOk(profiles, s)
    ensures var s' := ClearCookingPatrolCook(s, g);
            s' == s.(patrols := s'.patrols) && RowsOf(s'.patrols) == ClearCooks(RowsOf(s.patrols), g)
  {
    ListsAreWell(profiles, s);
    ClearedRows(s.patrols, g);
  }

  /** Setting a cook succeeds exactly for a member of the patrol, and then is the pair of updates. For anybody else the
      lists clear the flags before they fail, where the database form changes nothing. */
  lemma SetCookRefines(profiles: map<Id, Profile>, s: Store, e: Id, g: Id, p: Id)
    requires ListsOk(profiles, s)
    ensures var (s', reply) := SetCookingPatrolCook(s, e, g, p);
            && s' == s.(patrols := s'.patrols)
            && (reply == Done <==> (e, p) in RowsOf(s.patrols) && RowsOf(s.patrols)[(e, p)].0 == g)
            && RowsOf(s'.patrols) == SetCook(RowsOf(s.patrols), e, g, p)
  {
    ListsAreWell(profiles, s);
    CookedRows(s.patrols, e, g, p);
    WellListedAt(s.patrols, e);
    RowsMatch(s.patrols, e, p);
    MemberHasRow(ListOf(s.patrols, e), g, p);
    var gs := ListOf(s.patrols, e);
    if !InEvent(s.patrols, e, g) {
      SameRows(s.patrols, e, ReflagGroup(gs, g, Some(p)));
    }
  }

  /** Being a member of a group is having a row for it. */
  lemma MemberHasRow<K, F>(gs: seq<Group<K, F>>, g: Id, p: Id)
    requires Exclusive(gs) && DistinctIds(gs)
    ensures var k := Find(gs, g); k < |gs| && Has(gs[k], p) <==> p in TableOf(gs) && TableOf(gs)[p].0 == g
  {
    TableHolds(gs, p);
    hide TableOf, Exclusive;
    var k, h := Find(gs, g), Home(gs, p);
    if k < |gs| && Has(gs[k], p) {
      RowAt(gs, k, p);
    } else if h < |gs| {
      assert gs[h].id == g ==> h == k;
    }
  }

  /** Writing a list back does not change the rows. */
  lemma SameRows<K, F>(m: map<Id, seq<Group<K, F>>>, e: Id, gs: seq<Group<K, F>>)
    requires gs == ListOf(m, e)
    ensures RowsOf(m[e := gs]) == RowsOf(m)
  {
    var after := m[e := gs];
    forall x, q ensures Matches(RowsOf(m), after, x, q) {
      RowsMatch(m, x, q);
    }
    RowsAre(after, RowsOf(m));
  }
}
