/** The services and handlers that drive the event repository
    (internal/domain/event/tent_service.go, cooking_service.go, internal/api/events.go). */
module EventServices {
  import opened Common
  import opened Calendar
  import opened TentRules
  import opened Profiles
  import opened Groups
  import opened StoreSpec
  import opened ServiceSpec
  import opened EventRepositories
  import GroupInvariants
  import Logistics

  datatype Offer = Offered(tents: seq<Tent>) | NotOffered(fault: Fault)

  class TentService {
    const repo: EventRepository

    constructor (repo: EventRepository)
      ensures this.repo == repo
    {
      this.repo := repo;
    }

    /** The loop that keeps the approved connections, in the order they were listed. */
    static method CollectApproved(connections: seq<Connection>) returns (links: seq<ParentLink>)
      ensures links == ApprovedLinks(connections)
    {
      links := [];
      for i := 0 to |connections|
        invariant links == ApprovedLinks(connections[..i])
      {
        assert connections[..i + 1][..i] == connections[..i];
        if connections[i].status == Approved {
          links := links + [connections[i].link];
        }
      }
      assert connections[..|connections|] == connections;
    }

    static method IsMember<F>(ms: seq<Member<F>>, p: Id) returns (found: bool)
      ensures found <==> Count(ms, p) > 0
    {
      for a := 0 to |ms|
        invariant forall b | 0 <= b < a :: ms[b].profile != p
      {
        if ms[a].profile == p {
          CountPositive(ms, p);
          return true;
        }
      }
      CountPositive(ms, p);
      return false;
    }

    /** The members of a tent as scouts, and the added profile unless it is among them. */
    method ProspectiveScouts(ms: seq<Member<()>>, p: Id) returns (scouts: Option<seq<TentScout>>)
      requires Keyed(repo.profiles) && p in repo.profiles
      ensures scouts == if AllKnown(repo.profiles, ms) then Some(Prospective(repo.profiles, ms, p)) else None
    {
      var list: seq<TentScout> := [];
      var seen: set<Id> := {};
      for a := 0 to |ms|
        invariant forall b | 0 <= b < a :: ms[b].profile in repo.profiles
        invariant list == ScoutsOf(repo.profiles, ms[..a])
        invariant forall q :: q in seen <==> exists b | 0 <= b < a :: ms[b].profile == q
      {
        if ms[a].profile !in repo.profiles {
          return None;
        }
        var member := repo.profiles[ms[a].profile];
        seen := seen + {member.id};
        list := list + [ScoutOf(member)];
      }
      assert ms[..|ms|] == ms;
      CountPositive(ms, p);
      if p !in seen {
        list := list + [ScoutOf(repo.profiles[p])];
      }
      assert list == Prospective(repo.profiles, ms, p);
      return Some(list);
    }

    method AssignMember(connections: seq<Connection>, e: Id, t: Id, p: Id, maxAgeGap: int) returns (r: Placement)
      requires Keyed(repo.profiles) && UniqueIds(repo.tents)
      modifies repo
      ensures (repo.State(), r) == AssignToTent(repo.profiles, connections, old(repo.State()), e, t, p, maxAgeGap)
    {
      if p !in repo.profiles {
        return Refused(ProfileNotFound);
      }
      if repo.profiles[p].memberType != Youth {
        return Refused(AdultInTent);
      }
      if e !in repo.events {
        return Refused(EventNotFound);
      }
      var list := ListOf(repo.tents, e);
      GroupInvariants.UniqueIdsLocal(repo.tents, e);
      ghost var k := Find(list, t);
      var target: Option<Tent> := None;
      for i := 0 to |list|
        modifies {}
        invariant target == if k < i then Some(list[k]) else None
        invariant k < i ==> !Has(list[k], p)
      {
        if list[i].id != t {
          continue;
        }
        target := Some(list[i]);
        var member := IsMember(list[i].members, p);
        if member {
          return Accepted;
        }
      }
      if target.None? {
        return Refused(TentNotFound);
      }
      var scouts := ProspectiveScouts(target.value.members, p);
      if scouts.None? {
        return Refused(ProfileNotFound);
      }
      var links := CollectApproved(connections);
      var siblings := SiblingPairs(links);
      var violations := ValidateTent(scouts.value, repo.events[e].start, maxAgeGap, siblings, false);
      if |violations| > 0 {
        return Blocked(violations);
      }
      var reply := repo.AssignTentMember(e, t, p);
      return if reply.Done? then Accepted else Refused(reply.fault);
    }

    /** Whether the rules leave a tent open to the profile; None when a member has no profile. */
    method IsOpen(connections: seq<Connection>, ms: seq<Member<()>>, p: Id, start: Instant, maxAgeGap: int,
                  siblings: set<ScoutPair>)
      returns (open: Option<bool>)
      requires Keyed(repo.profiles) && p in repo.profiles && siblings == SiblingsIn(connections)
      ensures open.Some? <==> AllKnown(repo.profiles, ms)
      ensures open.Some? ==> (open.value <==> BlockedBy(repo.profiles, connections, start, maxAgeGap, ms, p) == [])
    {
      var scouts := ProspectiveScouts(ms, p);
      if scouts.None? {
        return None;
      }
      var violations := ValidateTent(scouts.value, start, maxAgeGap, siblings, false);
      return Some(|violations| == 0);
    }

    lemma NoTents(profiles: map<Id, Profile>, connections: seq<Connection>, start: Instant, gap: int, p: Id,
                  exclude: Option<Id>)
      requires p in profiles
      ensures KnownBut(profiles, [], exclude) && OpenTents(profiles, connections, start, gap, [], p, exclude) == []
    {
    }

    /** How one more tent extends the offer. */
    lemma NextTent(profiles: map<Id, Profile>, connections: seq<Connection>, start: Instant, gap: int, list: seq<Tent>,
                   i: nat, p: Id, exclude: Option<Id>)
      requires i < |list| && p in profiles && KnownBut(profiles, list[..i], exclude)
      ensures KnownBut(profiles, list[..i + 1], exclude) <==>
                (exclude == Some(list[i].id) || AllKnown(profiles, list[i].members))
      ensures !KnownBut(profiles, list[..i + 1], exclude) ==> !KnownBut(profiles, list, exclude)
      ensures KnownBut(profiles, list[..i + 1], exclude) ==>
                OpenTents(profiles, connections, start, gap, list[..i + 1], p, exclude)
                == OpenTents(profiles, connections, start, gap, list[..i], p, exclude)
                   + if exclude != Some(list[i].id)
                        && BlockedBy(profiles, connections, start, gap, list[i].members, p) == []
                     then [list[i]] else []
    {
      hide BlockedBy, AllKnown;
      assert list[..i + 1][..i] == list[..i] && list[..i + 1][i] == list[i];
    }

    method ValidTargetTents(connections: seq<Connection>, e: Id, p: Id, exclude: Option<Id>,
                            maxAgeGap: int) returns (r: Offer)
      requires Keyed(repo.profiles)
      ensures p !in repo.profiles ==> r == NotOffered(ProfileNotFound)
      ensures p in repo.profiles && e !in repo.events ==> r == NotOffered(EventNotFound)
      ensures p in repo.profiles && e in repo.events ==>
                r == if KnownBut(repo.profiles, ListOf(repo.tents, e), exclude)
                     then Offered(OpenTents(repo.profiles, connections, repo.events[e].start, maxAgeGap,
                                            ListOf(repo.tents, e), p, exclude))
                     else NotOffered(ProfileNotFound)
    {
      if p !in repo.profiles {
        return NotOffered(ProfileNotFound);
      }
      if e !in repo.events {
        return NotOffered(EventNotFound);
      }
      hide BlockedBy, AllKnown, KnownBut, OpenTents;
      NoTents(repo.profiles, connections, repo.events[e].start, maxAgeGap, p, exclude);
      var links := CollectApproved(connections);
      var siblings := SiblingPairs(links);
      var list := ListOf(repo.tents, e);
      var valid: seq<Tent> := [];
      for i := 0 to |list|
        invariant KnownBut(repo.profiles, list[..i], exclude)
        invariant valid == OpenTents(repo.profiles, connections, repo.events[e].start, maxAgeGap, list[..i], p, exclude)
      {
        NextTent(repo.profiles, connections, repo.events[e].start, maxAgeGap, list, i, p, exclude);
        if exclude == Some(list[i].id) {
          continue;
        }
        var open := IsOpen(connections, list[i].members, p, repo.events[e].start, maxAgeGap, siblings);
        if open.None? {
          return NotOffered(ProfileNotFound);
        }
        if !open.value {
          continue;
        }
        valid := valid + [list[i]];
      }
      assert list[..|list|] == list;
      return Offered(valid);
    }
  }

  class CookingPatrolService {
    const repo: EventRepository

    constructor (repo: EventRepository)
      ensures this.repo == repo
    {
      this.repo := repo;
    }

    method AfterSignUp(e: Id, p: Id, newId: Id) returns (reply: Reply)
      modifies repo
      ensures (repo.State(), reply) == ServiceSpec.AfterSignUp(repo.profiles, old(repo.State()), e, p, newId)
    {
      if e !in repo.events {
        return Failed(EventNotFound);
      }
      if !repo.events[e].cooking {
        return Done;
      }
      if p !in repo.profiles {
        return Failed(ProfileNotFound);
      }
      if repo.profiles[p].memberType != Adult {
        return Done;
      }
      var list := ListOf(repo.patrols, e);
      var k := IndexOfAdultPatrol(list);
      var adultPatrol := newId;
      if k < |list| {
        adultPatrol := list[k].id;
      } else {
        var _ := repo.CreateCookingPatrol(e, true, newId);
      }
      reply := repo.AssignCookingPatrolMember(e, adultPatrol, p);
    }

    lemma ClearTwice(s: Store, g: Id)
      ensures ClearCookingPatrolCook(ClearCookingPatrolCook(s, g), g) == ClearCookingPatrolCook(s, g)
    {
      var m := ClearCookIn(s.patrols, g);
      forall e | e in m ensures ReflagGroup(m[e], g, None) == m[e] {
        var gs := s.patrols[e];
        assert forall i | 0 <= i < |gs| :: m[e][i].id == gs[i].id;
        assert Find(m[e], g) == Find(gs, g);
        if Find(gs, g) < |gs| {
          assert Reflag(Reflag(gs[Find(gs, g)].members, None), None) == Reflag(gs[Find(gs, g)].members, None);
        }
      }
      assert ClearCookIn(m, g) == m;
    }

    /** The shared body of AfterWithdraw and RemoveMember: clear the cook of each listed patrol the profile
        cooks for, then take the profile out. */
    method Leave(e: Id, p: Id) returns (reply: Reply)
      requires UniqueIds(repo.patrols)
      modifies repo
      ensures (repo.State(), reply) == LeavePatrol(old(repo.State()), e, p)
    {
      if e !in repo.events {
        return Failed(EventNotFound);
      }
      var list := ListOf(repo.patrols, e);
      for i := 0 to |list|
        invariant UniqueIds(repo.patrols)
        invariant repo.State() == ClearCooksHeld(old(repo.State()), list[..i], p)
      {
        assert list[..i + 1][..i] == list[..i];
        ghost var before := repo.State();
        var ms := list[i].members;
        for a := 0 to |ms|
          invariant UniqueIds(repo.patrols)
          invariant repo.State() ==
                      if Member(p, true) in ms[..a] then ClearCookingPatrolCook(before, list[i].id) else before
        {
          if ms[a].profile == p && ms[a].flag {
            assert ms[a] == Member(p, true);
            Logistics.UniqueIdsClearCook(repo.patrols, list[i].id);
            ClearTwice(before, list[i].id);
            repo.ClearCookingPatrolCook(list[i].id);
          }
        }
        assert ms[..|ms|] == ms;
      }
      assert list[..|list|] == list;
      repo.RemoveCookingPatrolMember(e, p);
      return Done;
    }

    method AssignMember(e: Id, g: Id, p: Id) returns (reply: Reply)
      modifies repo
      ensures (repo.State(), reply) == AssignToPatrol(repo.profiles, old(repo.State()), e, g, p)
    {
      if p !in repo.profiles {
        return Failed(ProfileNotFound);
      }
      if repo.profiles[p].memberType == Adult {
        if e !in repo.events {
          return Failed(EventNotFound);
        }
        var list := ListOf(repo.patrols, e);
        var k := IndexOfGroup(list, g);
        if k == |list| || !list[k].kind {
          return Failed(AdultInYouthPatrol);
        }
      }
      reply := repo.AssignCookingPatrolMember(e, g, p);
    }
  }

  class EventHandler {
    const repo: EventRepository
    const cooking: CookingPatrolService

    constructor (repo: EventRepository, cooking: CookingPatrolService)
      requires cooking.repo == repo
      ensures this.repo == repo && this.cooking == cooking
    {
      this.repo := repo;
      this.cooking := cooking;
    }

    method EventCreate(newId: Id, info: EventInfo, creator: Option<Id>, newPatrol: Id)
      requires cooking.repo == repo
      modifies repo
      ensures repo.State() == HandleCreate(repo.profiles, old(repo.State()), newId, info, creator, newPatrol)
    {
      repo.Create(newId, info);
      if creator.Some? {
        var p := creator.value;
        var reply := repo.SignUp(newId, p);
        if reply.Done? {
          var _ := repo.AssignResponsibility(newId, p, Coordinator);
        }
        var _ := cooking.AfterSignUp(newId, p, newPatrol);
      }
    }

    method EventEdit(e: Id, info: EventInfo, newPatrol: Id)
      modifies repo
      ensures repo.State() == HandleEdit(repo.profiles, old(repo.State()), e, info, newPatrol)
    {
      if e in repo.events {
        var _ := repo.UpdateWithCooking(e, info, repo.events[e].cooking, newPatrol);
      }
    }

    method SignUp(e: Id, p: Id, leads: bool, newPatrol: Id)
      requires cooking.repo == repo
      modifies repo
      ensures repo.State() == HandleSignUp(repo.profiles, old(repo.State()), e, p, leads, newPatrol)
    {
      if e !in repo.events || p !in repo.profiles {
        return;
      }
      var _ := repo.SignUp(e, p);
      if repo.profiles[p].memberType == Youth && leads {
        var _ := repo.AssignResponsibility(e, p, SPL);
      }
      var _ := cooking.AfterSignUp(e, p, newPatrol);
    }

    method Withdraw(e: Id, p: Id)
      requires cooking.repo == repo && UniqueIds(repo.patrols)
      modifies repo
      ensures repo.State() == HandleWithdraw(repo.profiles, old(repo.State()), e, p)
    {
      if e !in repo.events || p !in repo.profiles {
        return;
      }
      var _ := repo.Withdraw(e, p);
      repo.RemoveDriver(e, p);
      repo.RemoveResponsibility(e, p, SPL);
      repo.RemoveResponsibility(e, p, Coordinator);
      repo.RemoveResponsibility(e, p, MedicalOfficer);
      repo.RemoveResponsibility(e, p, Driver);
      var _ := cooking.Leave(e, p);
      repo.RemoveTentMember(e, p);
    }

    method ToggleResponsibility(e: Id, p: Id, r: Responsibility) returns (reply: Reply)
      modifies repo
      ensures (repo.State(), reply) == HandleToggle(old(repo.State()), e, p, r)
    {
      if r == Driver {
        return Failed(DriverManagedSeparately);
      }
      if e !in repo.events {
        return Failed(EventNotFound);
      }
      var attending := Contains(ListOf(repo.attendees, e), p);
      if !attending {
        return Failed(NotSignedUp);
      }
      var list := ListOf(repo.duties, e);
      var alreadyAssigned := false;
      for i := 0 to |list|
        modifies {}
        invariant alreadyAssigned <==> Assignment(p, r) in list[..i]
      {
        if list[i].profile == p && list[i].responsibility == r {
          assert list[i] == Assignment(p, r);
          alreadyAssigned := true;
        }
      }
      if alreadyAssigned {
        repo.RemoveResponsibility(e, p, r);
        return Done;
      }
      reply := repo.AssignResponsibility(e, p, r);
      if reply.Failed? && reply.fault.SingletonConflict? {
        repo.RemoveResponsibility(e, reply.fault.holder, r);
        reply := repo.AssignResponsibility(e, p, r);
      }
    }
  }
}
