/** Lists of groups with members: the shape shared by an event's tents and its cooking patrols.
    The in-memory repository keeps them as nested lists; the database keeps one row per profile. */
module Groups {
  import opened Common

  /** `flag` is the cook designation of a patrol member; a tent member carries none. */
  datatype Member<F> = Member(profile: Id, flag: F)

  /** `kind` tells the adult patrol from the youth patrols; a tent carries none. */
  datatype Group<K, F> = Group(id: Id, name: string, kind: K, members: seq<Member<F>>)

  // ----- Members of one group -----

  function Count<F>(ms: seq<Member<F>>, p: Id): nat {
    if ms == [] then 0 else (if ms[0].profile == p then 1 else 0) + Count(ms[1..], p)
  }

  predicate Has<K, F>(g: Group<K, F>, p: Id) {
    Count(g.members, p) > 0
  }

  /** Splicing out the first entry of a profile. */
  function DropFirst<F>(ms: seq<Member<F>>, p: Id): seq<Member<F>> {
    if ms == [] then [] else if ms[0].profile == p then ms[1..] else [ms[0]] + DropFirst(ms[1..], p)
  }

  function FlagOf<F>(ms: seq<Member<F>>, p: Id): F
    requires Count(ms, p) > 0
  {
    if ms[0].profile == p then ms[0].flag else FlagOf(ms[1..], p)
  }

  lemma {:induction false} CountDrop<F>(ms: seq<Member<F>>, p: Id, q: Id)
    ensures Count(DropFirst(ms, p), q) == if q == p && Count(ms, p) > 0 then Count(ms, p) - 1 else Count(ms, q)
  {
    if ms != [] && ms[0].profile != p {
      CountDrop(ms[1..], p, q);
      assert DropFirst(ms, p)[1..] == DropFirst(ms[1..], p);
    }
  }

  lemma {:induction false} CountAppend<F>(ms: seq<Member<F>>, m: Member<F>, q: Id)
    ensures Count(ms + [m], q) == Count(ms, q) + if m.profile == q then 1 else 0
  {
    if ms == [] {
      assert ms + [m] == [m];
    } else {
      assert (ms + [m])[1..] == ms[1..] + [m];
      CountAppend(ms[1..], m, q);
    }
  }

  lemma {:induction false} CountPositive<F>(ms: seq<Member<F>>, p: Id)
    ensures Count(ms, p) > 0 <==> exists a :: 0 <= a < |ms| && ms[a].profile == p
  {
    if ms != [] {
      CountPositive(ms[1..], p);
      if a :| 0 <= a < |ms[1..]| && ms[1..][a].profile == p {
        assert ms[a + 1].profile == p;
      }
      if a :| 0 <= a < |ms| && ms[a].profile == p {
        assert a == 0 || ms[1..][a - 1].profile == p;
      }
    }
  }

  lemma {:induction false} FlagAfterDrop<F>(ms: seq<Member<F>>, p: Id, q: Id)
    requires p != q && Count(ms, q) > 0
    ensures Count(DropFirst(ms, p), q) > 0 && FlagOf(DropFirst(ms, p), q) == FlagOf(ms, q)
  {
    CountDrop(ms, p, q);
    if ms[0].profile != p {
      assert DropFirst(ms, p)[1..] == DropFirst(ms[1..], p);
      if ms[0].profile != q {
        FlagAfterDrop(ms[1..], p, q);
      }
    }
  }

  lemma {:induction false} FlagAfterAppend<F>(ms: seq<Member<F>>, m: Member<F>, q: Id)
    requires Count(ms, q) > 0 || m.profile == q
    ensures Count(ms + [m], q) > 0 && FlagOf(ms + [m], q) == if Count(ms, q) > 0 then FlagOf(ms, q) else m.flag
  {
    CountAppend(ms, m, q);
    if ms == [] {
      assert ms + [m] == [m];
    } else {
      assert (ms + [m])[1..] == ms[1..] + [m];
      if ms[0].profile != q {
        FlagAfterAppend(ms[1..], m, q);
      }
    }
  }

  /** Dropping a member keeps the others in place: the list loses one entry, or nothing. */
  lemma {:induction false} DropFirstSplice<F>(ms: seq<Member<F>>, p: Id) returns (a: nat)
    ensures a <= |ms|
    ensures a < |ms| ==> ms[a].profile == p && DropFirst(ms, p) == ms[..a] + ms[a + 1..]
    ensures a == |ms| ==> DropFirst(ms, p) == ms && Count(ms, p) == 0
  {
    if ms == [] {
      a := 0;
    } else if ms[0].profile == p {
      a := 0;
    } else {
      var b := DropFirstSplice(ms[1..], p);
      a := b + 1;
      if a < |ms| {
        assert ms[..a] + ms[a + 1..] == [ms[0]] + (ms[1..][..b] + ms[1..][b + 1..]);
      }
    }
  }

  // ----- The groups of one event -----

  /** No profile appears twice: neither in one group nor in two. */
  ghost predicate Exclusive<K, F>(gs: seq<Group<K, F>>) {
    && (forall i, p | 0 <= i < |gs| :: Count(gs[i].members, p) <= 1)
    && (forall i, j, p | 0 <= i < j < |gs| :: Has(gs[i], p) ==> !Has(gs[j], p))
  }

  ghost predicate DistinctIds<K, F>(gs: seq<Group<K, F>>) {
    forall i, j | 0 <= i < j < |gs| :: gs[i].id != gs[j].id
  }

  /** Index of the first group with the given id, or the length when there is none. */
  function Find<K, F>(gs: seq<Group<K, F>>, id: Id): (k: nat)
    ensures k <= |gs|
    ensures k < |gs| ==> gs[k].id == id
    ensures forall i | 0 <= i < k :: gs[i].id != id
  {
    if gs == [] then 0 else if gs[0].id == id then 0 else 1 + Find(gs[1..], id)
  }

  /** Drops the first entry of a profile in every group. */
  function PullOut<K, F>(gs: seq<Group<K, F>>, p: Id): (r: seq<Group<K, F>>)
    ensures |r| == |gs|
  {
    seq(|gs|, i requires 0 <= i < |gs| => gs[i].(members := DropFirst(gs[i].members, p)))
  }

  /** Drops the first entry of a profile in the first group that has it. */
  function PullFirst<K, F>(gs: seq<Group<K, F>>, p: Id): seq<Group<K, F>> {
    if gs == [] then []
    else if Has(gs[0], p) then [gs[0].(members := DropFirst(gs[0].members, p))] + gs[1..]
    else [gs[0]] + PullFirst(gs[1..], p)
  }

  function AddTo<K, F>(gs: seq<Group<K, F>>, k: nat, m: Member<F>): (r: seq<Group<K, F>>)
    requires k < |gs|
    ensures |r| == |gs|
  {
    gs[k := gs[k].(members := gs[k].members + [m])]
  }

  /** Moves a profile into group k. */
  function PlaceAt<K, F>(gs: seq<Group<K, F>>, k: nat, p: Id, flag: F): (r: seq<Group<K, F>>)
    requires k < |gs|
    ensures |r| == |gs|
  {
    AddTo(PullOut(gs, p), k, Member(p, flag))
  }

  /** Removes the first group with the given id. */
  function DropGroup<K, F>(gs: seq<Group<K, F>>, id: Id): seq<Group<K, F>> {
    var k := Find(gs, id);
    if k < |gs| then gs[..k] + gs[k + 1..] else gs
  }

  /** Leaves the flag on the given profile only, or on nobody. */
  function Reflag(ms: seq<Member<bool>>, only: Option<Id>): (r: seq<Member<bool>>)
    ensures |r| == |ms|
  {
    seq(|ms|, a requires 0 <= a < |ms| => Member(ms[a].profile, only == Some(ms[a].profile)))
  }

  /** Rewrites the flags in the first group with the given id. */
  function ReflagGroup<K>(gs: seq<Group<K, bool>>, id: Id, only: Option<Id>): (r: seq<Group<K, bool>>)
    ensures |r| == |gs|
  {
    var k := Find(gs, id);
    if k < |gs| then gs[k := gs[k].(members := Reflag(gs[k].members, only))] else gs
  }

  // ----- Exclusivity is kept -----

  lemma PullOutCount<K, F>(gs: seq<Group<K, F>>, p: Id, i: nat, q: Id)
    requires Exclusive(gs) && i < |gs|
    ensures Count(PullOut(gs, p)[i].members, q) == if q == p then 0 else Count(gs[i].members, q)
  {
    CountDrop(gs[i].members, p, q);
  }

  lemma PullOutExclusive<K, F>(gs: seq<Group<K, F>>, p: Id)
    requires Exclusive(gs)
    ensures Exclusive(PullOut(gs, p))
    ensures forall i | 0 <= i < |gs| :: !Has(PullOut(gs, p)[i], p)
  {
    forall i, q | 0 <= i < |gs|
      ensures Count(PullOut(gs, p)[i].members, q) == if q == p then 0 else Count(gs[i].members, q)
    {
      PullOutCount(gs, p, i, q);
    }
    forall i, j, q | 0 <= i < j < |gs| && Has(PullOut(gs, p)[i], q) ensures !Has(PullOut(gs, p)[j], q) {
      assert Has(gs[i], q);
    }
  }

  lemma AddToExclusive<K, F>(gs: seq<Group<K, F>>, k: nat, m: Member<F>)
    requires Exclusive(gs) && k < |gs|
    requires forall i | 0 <= i < |gs| :: !Has(gs[i], m.profile)
    ensures Exclusive(AddTo(gs, k, m))
  {
    forall q ensures Count(gs[k].members + [m], q) == Count(gs[k].members, q) + if m.profile == q then 1 else 0 {
      CountAppend(gs[k].members, m, q);
    }
  }

  lemma PlaceAtExclusive<K, F>(gs: seq<Group<K, F>>, k: nat, p: Id, flag: F)
    requires Exclusive(gs) && k < |gs|
    ensures Exclusive(PlaceAt(gs, k, p, flag))
  {
    PullOutExclusive(gs, p);
    AddToExclusive(PullOut(gs, p), k, Member(p, flag));
  }

  lemma AppendExclusive<K, F>(gs: seq<Group<K, F>>, g: Group<K, F>)
    requires Exclusive(gs)
    requires forall p :: Count(g.members, p) <= 1
    requires forall i, p | 0 <= i < |gs| && Has(g, p) :: !Has(gs[i], p)
    ensures Exclusive(gs + [g])
  {
  }

  lemma DropGroupExclusive<K, F>(gs: seq<Group<K, F>>, id: Id)
    requires Exclusive(gs)
    ensures Exclusive(DropGroup(gs, id))
  {
  }

  lemma {:induction false} ReflagCount(ms: seq<Member<bool>>, only: Option<Id>, q: Id)
    ensures Count(Reflag(ms, only), q) == Count(ms, q)
  {
    if ms != [] {
      assert Reflag(ms, only)[1..] == Reflag(ms[1..], only);
      ReflagCount(ms[1..], only, q);
    }
  }

  lemma ReflagExclusive<K>(gs: seq<Group<K, bool>>, id: Id, only: Option<Id>)
    requires Exclusive(gs)
    ensures Exclusive(ReflagGroup(gs, id, only))
  {
    var k := Find(gs, id);
    if k < |gs| {
      forall q ensures Count(Reflag(gs[k].members, only), q) == Count(gs[k].members, q) {
        ReflagCount(gs[k].members, only, q);
      }
    }
  }

  lemma {:induction false} DropAbsent<F>(ms: seq<Member<F>>, p: Id)
    requires Count(ms, p) == 0
    ensures DropFirst(ms, p) == ms
  {
    if ms != [] {
      DropAbsent(ms[1..], p);
    }
  }

  /** Deleting only the first match is enough because no profile appears twice. */
  lemma {:induction false} FirstMatchSuffices<K, F>(gs: seq<Group<K, F>>, p: Id)
    requires Exclusive(gs)
    ensures PullFirst(gs, p) == PullOut(gs, p)
  {
    if gs != [] {
      var rest := gs[1..];
      if Has(gs[0], p) {
        forall i | 0 < i < |gs| ensures PullOut(gs, p)[i] == gs[i] {
          assert !Has(gs[i], p);
          DropAbsent(gs[i].members, p);
        }
      } else {
        DropAbsent(gs[0].members, p);
        assert forall i | 0 <= i < |rest| :: rest[i] == gs[i + 1];
        FirstMatchSuffices(rest, p);
        assert PullOut(gs, p) == [gs[0]] + PullOut(rest, p);
      }
    }
  }

  // ----- The keyed table: one row (group, flag) per profile -----

  type Table<F> = map<Id, (Id, F)>

  ghost function Everyone<K, F>(gs: seq<Group<K, F>>): set<Id> {
    set i, a | 0 <= i < |gs| && 0 <= a < |gs[i].members| :: gs[i].members[a].profile
  }

  /** Index of the first group that has the profile, or the length when there is none. */
  function Home<K, F>(gs: seq<Group<K, F>>, p: Id): (k: nat)
    ensures k <= |gs|
    ensures k < |gs| ==> Has(gs[k], p)
    ensures forall i | 0 <= i < k :: !Has(gs[i], p)
  {
    if gs == [] then 0 else if Has(gs[0], p) then 0 else 1 + Home(gs[1..], p)
  }

  lemma EveryoneHasHome<K, F>(gs: seq<Group<K, F>>, p: Id)
    ensures p in Everyone(gs) <==> Home(gs, p) < |gs|
  {
    var k := Home(gs, p);
    if k < |gs| {
      CountPositive(gs[k].members, p);
    }
    if p in Everyone(gs) {
      var i, a :| 0 <= i < |gs| && 0 <= a < |gs[i].members| && gs[i].members[a].profile == p;
      CountPositive(gs[i].members, p);
    }
  }

  /** The row of a profile: the group it is in and its flag there. */
  function Row<K, F>(gs: seq<Group<K, F>>, p: Id): Option<(Id, F)> {
    var k := Home(gs, p);
    if k < |gs| then Some((gs[k].id, FlagOf(gs[k].members, p))) else None
  }

  ghost function TableOf<K, F>(gs: seq<Group<K, F>>): Table<F> {
    map p | p in Everyone(gs) && Row(gs, p).Some? :: Row(gs, p).value
  }

  /** A table holds the rows of the lists. */
  ghost predicate Holds<K, F>(t: Table<F>, gs: seq<Group<K, F>>, p: Id) {
    Row(gs, p) == if p in t then Some(t[p]) else None
  }

  lemma TableHolds<K, F>(gs: seq<Group<K, F>>, p: Id)
    ensures Holds(TableOf(gs), gs, p)
  {
    EveryoneHasHome(gs, p);
  }

  lemma TableIs<K, F>(gs: seq<Group<K, F>>, t: Table<F>)
    requires forall p :: Holds(t, gs, p)
    ensures TableOf(gs) == t
  {
    forall p ensures p in TableOf(gs) <==> p in t
             ensures p in t ==> TableOf(gs)[p] == t[p]
    {
      TableHolds(gs, p);
      assert Holds(t, gs, p);
    }
  }

  lemma RowAt<K, F>(gs: seq<Group<K, F>>, k: nat, p: Id)
    requires Exclusive(gs) && k < |gs| && Has(gs[k], p)
    ensures Home(gs, p) == k && Row(gs, p) == Some((gs[k].id, FlagOf(gs[k].members, p)))
  {
  }

  lemma RowAfterPullOut<K, F>(gs: seq<Group<K, F>>, p: Id, q: Id)
    requires Exclusive(gs)
    ensures Row(PullOut(gs, p), q) == if q == p then None else Row(gs, q)
  {
    var after := PullOut(gs, p);
    PullOutExclusive(gs, p);
    var k, h := Home(gs, q), Home(after, q);
    if q != p && k < |gs| {
      FlagAfterDrop(gs[k].members, p, q);
      RowAt(after, k, q);
    } else if h < |gs| {
      PullOutCount(gs, p, h, q);
    }
  }

  lemma RowAfterAdd<K, F>(gs: seq<Group<K, F>>, k: nat, m: Member<F>, q: Id)
    requires Exclusive(gs) && k < |gs|
    requires forall i | 0 <= i < |gs| :: !Has(gs[i], m.profile)
    ensures Row(AddTo(gs, k, m), q) == if q == m.profile then Some((gs[k].id, m.flag)) else Row(gs, q)
  {
    var after := AddTo(gs, k, m);
    AddToExclusive(gs, k, m);
    CountAppend(gs[k].members, m, q);
    if q == m.profile || Home(gs, q) == k {
      FlagAfterAppend(gs[k].members, m, q);
      RowAt(after, k, q);
    } else if Home(gs, q) < |gs| {
      RowAt(after, Home(gs, q), q);
    }
  }

  lemma RowAfterPlace<K, F>(gs: seq<Group<K, F>>, k: nat, p: Id, flag: F, q: Id)
    requires Exclusive(gs) && k < |gs|
    ensures Row(PlaceAt(gs, k, p, flag), q) == if q == p then Some((gs[k].id, flag)) else Row(gs, q)
  {
    PullOutExclusive(gs, p);
    RowAfterPullOut(gs, p, q);
    RowAfterAdd(PullOut(gs, p), k, Member(p, flag), q);
  }

  lemma {:induction false} ReflagFlag(ms: seq<Member<bool>>, only: Option<Id>, q: Id)
    requires Count(ms, q) > 0
    ensures Count(Reflag(ms, only), q) > 0 && FlagOf(Reflag(ms, only), q) == (only == Some(q))
  {
    ReflagCount(ms, only, q);
    if ms[0].profile != q {
      assert Reflag(ms, only)[1..] == Reflag(ms[1..], only);
      ReflagFlag(ms[1..], only, q);
    }
  }

  lemma RowAfterReflag<K>(gs: seq<Group<K, bool>>, id: Id, only: Option<Id>, q: Id)
    requires Exclusive(gs) && DistinctIds(gs)
    ensures Row(ReflagGroup(gs, id, only), q)
         == (match Row(gs, q) case None => None case Some(r) => Some(if r.0 == id then (id, only == Some(q)) else r))
  {
    var after := ReflagGroup(gs, id, only);
    var k, h := Find(gs, id), Home(gs, q);
    ReflagExclusive(gs, id, only);
    if k < |gs| {
      ReflagCount(gs[k].members, only, q);
    }
    if h < |gs| {
      RowAt(after, h, q);
      assert gs[h].id == id <==> h == k;
      if h == k {
        ReflagFlag(gs[k].members, only, q);
      }
    }
  }

  lemma RowAfterDropGroup<K, F>(gs: seq<Group<K, F>>, id: Id, q: Id)
    requires Exclusive(gs) && DistinctIds(gs)
    ensures Row(DropGroup(gs, id), q)
         == (match Row(gs, q) case None => None case Some(r) => if r.0 == id then None else Some(r))
  {
    var after := DropGroup(gs, id);
    var k, h := Find(gs, id), Home(gs, q);
    DropGroupExclusive(gs, id);
    if h < |gs| && h != k {
      var h' := if h < k then h else h - 1;
      assert after[h'] == gs[h];
      RowAt(after, h', q);
    }
    var a := Home(after, q);
    if a < |after| {
      var a' := if a < k then a else a + 1;
      assert after[a] == gs[a'];
      RowAt(gs, a', q);
    }
  }

  /** A group without members has no rows. */
  lemma EmptyGroupHasNoRows<K, F>(gs: seq<Group<K, F>>, g: Group<K, F>)
    requires g.members == []
    ensures TableOf(gs + [g]) == TableOf(gs)
  {
    var all := gs + [g];
    forall q ensures Holds(TableOf(gs), all, q) {
      TableHolds(gs, q);
      var k := Home(gs, q);
      assert forall i | 0 <= i < k :: all[i] == gs[i];
      assert k < |gs| ==> all[k] == gs[k];
      assert Row(all, q) == Row(gs, q);
    }
    TableIs(all, TableOf(gs));
  }

  // The statements of the database form.

  function Upsert<F>(t: Table<F>, p: Id, g: Id, flag: F): Table<F> {
    t[p := (g, flag)]
  }

  function DeleteRow<F>(t: Table<F>, p: Id): Table<F> {
    t - {p}
  }

  /** UPDATE ... SET is_cook = FALSE WHERE group = g. */
  function ClearFlags(t: Table<bool>, g: Id): Table<bool> {
    map p | p in t :: if t[p].0 == g then (g, false) else t[p]
  }

  /** UPDATE ... SET is_cook = TRUE WHERE group = g AND profile = p. */
  function RaiseFlag(t: Table<bool>, g: Id, p: Id): Table<bool> {
    if p in t && t[p].0 == g then t[p := (g, true)] else t
  }

  /** DELETE of a group together with its member rows. */
  function DeleteGroupRows<F>(t: Table<F>, g: Id): Table<F> {
    map p | p in t && t[p].0 != g :: t[p]
  }

  /** Assigning on the nested lists is the upsert of one row. */
  lemma PlaceRefinesUpsert<K, F>(gs: seq<Group<K, F>>, k: nat, p: Id, flag: F)
    requires Exclusive(gs) && k < |gs|
    ensures TableOf(PlaceAt(gs, k, p, flag)) == Upsert(TableOf(gs), p, gs[k].id, flag)
  {
    forall q ensures Holds(Upsert(TableOf(gs), p, gs[k].id, flag), PlaceAt(gs, k, p, flag), q) {
      TableHolds(gs, q);
      RowAfterPlace(gs, k, p, flag, q);
    }
    TableIs(PlaceAt(gs, k, p, flag), Upsert(TableOf(gs), p, gs[k].id, flag));
  }

  /** Removing the first match on the nested lists is the deletion of one row. */
  lemma RemoveRefinesDelete<K, F>(gs: seq<Group<K, F>>, p: Id)
    requires Exclusive(gs)
    ensures TableOf(PullFirst(gs, p)) == DeleteRow(TableOf(gs), p)
  {
    FirstMatchSuffices(gs, p);
    forall q ensures Holds(DeleteRow(TableOf(gs), p), PullOut(gs, p), q) {
      TableHolds(gs, q);
      RowAfterPullOut(gs, p, q);
    }
    TableIs(PullOut(gs, p), DeleteRow(TableOf(gs), p));
  }

  /** Clearing one group's flags in place is the update of that group's rows. */
  lemma ClearRefinesUpdate<K>(gs: seq<Group<K, bool>>, id: Id)
    requires Exclusive(gs) && DistinctIds(gs)
    ensures TableOf(ReflagGroup(gs, id, None)) == ClearFlags(TableOf(gs), id)
  {
    forall q ensures Holds(ClearFlags(TableOf(gs), id), ReflagGroup(gs, id, None), q) {
      TableHolds(gs, q);
      RowAfterReflag(gs, id, None, q);
    }
    TableIs(ReflagGroup(gs, id, None), ClearFlags(TableOf(gs), id));
  }

  lemma ReflaggedRow<K>(gs: seq<Group<K, bool>>, id: Id, p: Id, q: Id)
    requires Exclusive(gs) && DistinctIds(gs)
    ensures Holds(RaiseFlag(ClearFlags(TableOf(gs), id), id, p), ReflagGroup(gs, id, Some(p)), q)
  {
    TableHolds(gs, q);
    RowAfterReflag(gs, id, Some(p), q);
  }

  /** Leaving the flag on one profile is the pair of updates: clear the group, then raise one row. For a profile outside
      the group both forms only clear. */
  lemma ReflagRefinesUpdates<K>(gs: seq<Group<K, bool>>, id: Id, p: Id)
    requires Exclusive(gs) && DistinctIds(gs)
    ensures TableOf(ReflagGroup(gs, id, Some(p))) == RaiseFlag(ClearFlags(TableOf(gs), id), id, p)
  {
    hide Holds, RaiseFlag, ClearFlags, Exclusive, DistinctIds;
    var t := RaiseFlag(ClearFlags(TableOf(gs), id), id, p);
    forall q ensures Holds(t, ReflagGroup(gs, id, Some(p)), q) {
      ReflaggedRow(gs, id, p, q);
    }
    TableIs(ReflagGroup(gs, id, Some(p)), t);
  }

  /** Deleting a group is the deletion of its rows. */
  lemma DropGroupRefinesDelete<K, F>(gs: seq<Group<K, F>>, id: Id)
    requires Exclusive(gs) && DistinctIds(gs)
    ensures TableOf(DropGroup(gs, id)) == DeleteGroupRows(TableOf(gs), id)
  {
    forall q ensures Holds(DeleteGroupRows(TableOf(gs), id), DropGroup(gs, id), q) {
      TableHolds(gs, q);
      RowAfterDropGroup(gs, id, q);
    }
    TableIs(DropGroup(gs, id), DeleteGroupRows(TableOf(gs), id));
  }
}
