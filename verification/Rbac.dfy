/** Roles of users, and their reconciliation with roster positions
    (internal/storage/mock/repositories.go, internal/domain/rbac/reconcile.go). */
module RoleSpec {
  import opened Common

  /** Role identifier to name, and the role identifiers each user holds. */
  datatype RoleStore = RoleStore(roles: map<Id, string>, userRoles: map<Id, seq<Id>>)

  ghost predicate WellFormed(rs: RoleStore) {
    && (forall a, b | a in rs.roles && b in rs.roles && rs.roles[a] == rs.roles[b] :: a == b)
    && (forall u | u in rs.userRoles :: Distinct(rs.userRoles[u]))
    && (forall u, r | u in rs.userRoles && r in rs.userRoles[u] :: r in rs.roles)
  }

  function NamesIn(roles: map<Id, string>, list: seq<Id>): set<string> {
    set r | r in list && r in roles :: roles[r]
  }

  /** The names of the roles a user holds. */
  function RoleNames(rs: RoleStore, u: Id): set<string> {
    NamesIn(rs.roles, ListOf(rs.userRoles, u))
  }

  ghost function Names(list: seq<string>): set<string> {
    set n | n in list
  }

  const PROTECTED: set<string> := {"parent", "admin", "Scouts BSA"}

  function Added(held: set<string>, targets: set<string>): set<string> {
    targets - (held - PROTECTED)
  }

  function Removed(held: set<string>, targets: set<string>): set<string> {
    held - PROTECTED - targets
  }

  /** The outcome promised: the protected roles already held, and the target positions. */
  function Reconciled(held: set<string>, targets: set<string>): set<string> {
    held * PROTECTED + targets
  }

  function Reverted(held: set<string>, added: set<string>, removed: set<string>): set<string> {
    held - added + removed
  }

  /** The sets reported are the exact differences, unless a position names a protected role. */
  lemma ReportedDifferences(held: set<string>, targets: set<string>)
    ensures Reconciled(held, targets) == held + Added(held, targets) - Removed(held, targets)
    ensures Removed(held, targets) == held - Reconciled(held, targets)
    ensures Added(held, targets) == Reconciled(held, targets) - held <==> targets * held * PROTECTED == {}
  {
    var clash := targets * held * PROTECTED;
    assert Reconciled(held, targets) - held == Added(held, targets) - clash;
    NothingToSubtract(Added(held, targets), clash);
  }

  lemma NothingToSubtract(all: set<string>, part: set<string>)
    requires part <= all
    ensures all - part == all <==> part == {}
  {
  }

  /** Protected roles are never removed, whatever the positions. */
  lemma ProtectedRolesStay(held: set<string>, targets: set<string>)
    ensures held * PROTECTED <= Reconciled(held, targets)
    ensures Removed(held, targets) !! PROTECTED
  {
  }

  /** Role by role: the named ones are held afterwards, and of those held before the parent, admin and Scouts BSA roles.
      All other roles held before without being named are reported as removed, and all named ones as added but for those
      of them held before. */
  lemma ReconciledMeaning(held: set<string>, targets: set<string>, role: string)
    ensures var unprotected := role !in {"parent", "admin", "Scouts BSA"};
            && (role in Reconciled(held, targets) <==> role in targets || (role in held && !unprotected))
            && (role in Added(held, targets) <==> role in targets && !(role in held && unprotected))
            && (role in Removed(held, targets) <==> role in held && unprotected && role !in targets)
  {
  }

  /** Undoing the reported changes restores the held set exactly when no position is a protected role
      that the user already held. */
  lemma RevertRestoresIff(held: set<string>, targets: set<string>)
    ensures Reverted(Reconciled(held, targets), Added(held, targets), Removed(held, targets)) == held
       <==> targets * held * PROTECTED == {}
  {
    var clash := targets * held * PROTECTED;
    assert Reverted(Reconciled(held, targets), Added(held, targets), Removed(held, targets)) == held - clash;
    NothingToSubtract(held, clash);
  }

  /** A second reconciliation changes nothing; it reports nothing exactly when no position is protected. */
  lemma ReconcileIsStable(held: set<string>, targets: set<string>)
    ensures var after := Reconciled(held, targets);
            && Reconciled(after, targets) == after
            && Removed(after, targets) == {}
            && Added(after, targets) == targets * PROTECTED
  {
  }
}

module RoleRepositories {
  import opened Common
  import opened RoleSpec
  import opened Positions

  class RBACRepository {
    var roles: map<Id, string>
    var userRoles: map<Id, seq<Id>>

    constructor ()
      ensures State() == RoleStore(map[], map[]) && WellFormed(State())
    {
      roles, userRoles := map[], map[];
    }

    ghost function State(): RoleStore
      reads this
    {
      RoleStore(roles, userRoles)
    }

    method GetRoleByName(name: string) returns (role: Option<Id>)
      ensures role.Some? ==> role.value in roles && roles[role.value] == name
      ensures role.None? ==> forall r | r in roles :: roles[r] != name
    {
      var todo := roles.Keys;
      while todo != {}
        invariant todo <= roles.Keys
        invariant forall r | r in roles && r !in todo :: roles[r] != name
      {
        var r := NextKey(todo);
        if roles[r] == name {
          return Some(r);
        }
        todo := todo - {r};
      }
      return None;
    }

    /** Returns the role of that name, creating it if there is none; nobody's roles change. */
    method CreateRole(name: string) returns (role: Id)
      requires WellFormed(State())
      modifies this
      ensures WellFormed(State()) && userRoles == old(userRoles)
      ensures role in roles && roles[role] == name
      ensures forall r | r in old(roles) :: r in roles && roles[r] == old(roles)[r]
      ensures forall u :: RoleNames(State(), u) == old(RoleNames(State(), u))
    {
      var existing := GetRoleByName(name);
      if existing.Some? {
        return existing.value;
      }
      role := NewId(roles.Keys);
      roles := roles[role := name];
      assert forall u :: RoleNames(State(), u) == old(RoleNames(State(), u)) by {
        forall u ensures RoleNames(State(), u) == old(RoleNames(State(), u)) {
          assert u in userRoles ==> forall r | r in userRoles[u] :: r in old(roles);
        }
      }
    }

    /** Gives the user the role; an unknown role is refused. */
    method AssignRoleToUser(u: Id, role: Id) returns (ok: bool)
      requires WellFormed(State())
      modifies this
      ensures WellFormed(State()) && roles == old(roles)
      ensures ok <==> role in roles
      ensures forall v :: RoleNames(State(), v) ==
                          old(RoleNames(State(), v)) + if ok && v == u then {roles[role]} else {}
    {
      if role !in roles {
        return false;
      }
      var list := ListOf(userRoles, u);
      for i := 0 to |list|
        invariant role !in list[..i]
      {
        if list[i] == role {
          return true;
        }
      }
      userRoles := userRoles[u := list + [role]];
      NamesAppend(roles, list, role);
      return true;
    }

    /** Takes the role from the user: the first match is the only one. A role that is not known is nobody's. */
    method RemoveRoleFromUser(u: Id, role: Id)
      requires WellFormed(State())
      modifies this
      ensures WellFormed(State()) && roles == old(roles)
      ensures forall v :: RoleNames(State(), v) ==
                          old(RoleNames(State(), v)) - if v == u && role in roles then {roles[role]} else {}
    {
      var list := ListOf(userRoles, u);
      var i := 0;
      while i < |list| && list[i] != role
        invariant i <= |list| && role !in list[..i]
      {
        i := i + 1;
      }
      if i < |list| {
        SpliceRole(roles, list, i);
        userRoles := userRoles[u := list[..i] + list[i + 1..]];
      } else {
        assert list[..i] == list;
      }
    }

    lemma SpliceRole(roles: map<Id, string>, list: seq<Id>, i: nat)
      requires i < |list| && Distinct(list) && list[i] in roles
      requires forall a, b | a in roles && b in roles && roles[a] == roles[b] :: a == b
      ensures var rest := list[..i] + list[i + 1..];
              Distinct(rest) && (forall r | r in rest :: r in list)
              && NamesIn(roles, rest) == NamesIn(roles, list) - {roles[list[i]]}
    {
    }

    lemma NamesAppend(roles: map<Id, string>, list: seq<Id>, role: Id)
      ensures NamesIn(roles, list + [role]) == NamesIn(roles, list) + if role in roles then {roles[role]} else {}
    {
    }

    /** The names of the roles a user holds, protected ones left out. */
    method UnprotectedNames(u: Id) returns (names: set<string>)
      ensures names == RoleNames(State(), u) - PROTECTED
    {
      var list := ListOf(userRoles, u);
      names := {};
      for i := 0 to |list|
        invariant names == NamesIn(roles, list[..i]) - PROTECTED
      {
        assert list[..i + 1] == list[..i] + [list[i]];
        NamesAppend(roles, list[..i], list[i]);
        if list[i] in roles && roles[list[i]] !in PROTECTED {
          names := names + {roles[list[i]]};
        }
      }
      assert list[..|list|] == list;
    }

    /** Brings the user's roles in line with the positions; the two lists are visited in map order. */
    method ReconcileRoles(u: Id, positions: string) returns (addedNames: seq<string>, removedNames: seq<string>)
      requires WellFormed(State())
      modifies this
      ensures WellFormed(State())
      ensures RoleNames(State(), u) == Reconciled(old(RoleNames(State(), u)), Targets(positions))
      ensures forall n | n in old(RoleNames(State(), u)) && n in {"parent", "admin", "Scouts BSA"} ::
                n in RoleNames(State(), u)
      ensures forall v | v != u :: RoleNames(State(), v) == old(RoleNames(State(), v))
      ensures Distinct(addedNames) && Names(addedNames) == Added(old(RoleNames(State(), u)), Targets(positions))
      ensures Distinct(removedNames) && Names(removedNames) == Removed(old(RoleNames(State(), u)), Targets(positions))
    {
      ghost var held := RoleNames(State(), u);
      var current := UnprotectedNames(u);
      var targets := Targets(positions);
      addedNames := AddMissing(u, current, targets);
      assert Names(addedNames) == Added(held, targets);
      removedNames := RemoveStale(u, current, targets);
      assert Names(removedNames) == Removed(held, targets);
      ReportedDifferences(held, targets);
    }

    /** The loop over the target positions. */
    method AddMissing(u: Id, current: set<string>, targets: set<string>) returns (addedNames: seq<string>)
      requires WellFormed(State())
      modifies this
      ensures WellFormed(State())
      ensures Distinct(addedNames) && Names(addedNames) == targets - current
      ensures forall v :: RoleNames(State(), v) == old(RoleNames(State(), v)) + if v == u then targets - current else {}
    {
      addedNames := [];
      var todo := targets;
      while todo != {}
        invariant WellFormed(State()) && todo <= targets
        invariant Distinct(addedNames) && Names(addedNames) == targets - todo - current
        invariant forall v :: RoleNames(State(), v) ==
                    old(RoleNames(State(), v)) + if v == u then targets - todo - current else {}
      {
        var pos := NextKey(todo);
        if pos !in current {
          var existing := GetRoleByName(pos);
          var role: Id;
          if existing.Some? {
            role := existing.value;
          } else {
            role := CreateRole(pos);
          }
          var _ := AssignRoleToUser(u, role);
          AppendName(addedNames, pos);
          addedNames := addedNames + [pos];
        }
        todo := todo - {pos};
      }
    }

    lemma AppendName(list: seq<string>, name: string)
      ensures Names(list + [name]) == Names(list) + {name}
      ensures Distinct(list) && name !in Names(list) ==> Distinct(list + [name])
    {
    }

    /** The loop over the current role names. */
    method RemoveStale(u: Id, current: set<string>, targets: set<string>) returns (removedNames: seq<string>)
      requires WellFormed(State()) && current <= RoleNames(State(), u)
      modifies this
      ensures WellFormed(State())
      ensures Distinct(removedNames) && Names(removedNames) == current - targets
      ensures forall v :: RoleNames(State(), v) == old(RoleNames(State(), v)) - if v == u then current - targets else {}
    {
      removedNames := [];
      var todo := current;
      while todo != {}
        invariant WellFormed(State()) && todo <= current && roles == old(roles)
        invariant Distinct(removedNames) && Names(removedNames) == current - todo - targets
        invariant forall v :: RoleNames(State(), v) ==
                    old(RoleNames(State(), v)) - if v == u then current - todo - targets else {}
      {
        var name := NextKey(todo);
        if name !in targets {
          var role := GetRoleByName(name);
          assert name in old(RoleNames(State(), u));
          if role.Some? {
            RemoveRoleFromUser(u, role.value);
            AppendName(removedNames, name);
            removedNames := removedNames + [name];
          }
        }
        todo := todo - {name};
      }
    }

    /** The role part of a revert: drop the names that were added, then give back those that were removed. */
    method RevertRoles(u: Id, rolesAdded: seq<string>, rolesRemoved: seq<string>)
      requires WellFormed(State())
      modifies this
      ensures WellFormed(State())
      ensures RoleNames(State(), u) == Reverted(old(RoleNames(State(), u)), Names(rolesAdded), Names(rolesRemoved))
      ensures forall n :: n in RoleNames(State(), u) <==>
                n in rolesRemoved || (n in old(RoleNames(State(), u)) && n !in rolesAdded)
      ensures forall v | v != u :: RoleNames(State(), v) == old(RoleNames(State(), v))
    {
      DropRoles(u, rolesAdded);
      GiveRoles(u, rolesRemoved);
    }

    method DropRoles(u: Id, names: seq<string>)
      requires WellFormed(State())
      modifies this
      ensures WellFormed(State())
      ensures forall v :: RoleNames(State(), v) == old(RoleNames(State(), v)) - if v == u then Names(names) else {}
    {
      for i := 0 to |names|
        invariant WellFormed(State())
        invariant forall v :: RoleNames(State(), v) ==
                    old(RoleNames(State(), v)) - if v == u then Names(names[..i]) else {}
      {
        assert names[..i + 1] == names[..i] + [names[i]];
        AppendName(names[..i], names[i]);
        var role := GetRoleByName(names[i]);
        if role.None? {
          assert names[i] !in RoleNames(State(), u);
          continue;
        }
        RemoveRoleFromUser(u, role.value);
      }
      assert names[..|names|] == names;
    }

    method GiveRoles(u: Id, names: seq<string>)
      requires WellFormed(State())
      modifies this
      ensures WellFormed(State())
      ensures forall v :: RoleNames(State(), v) == old(RoleNames(State(), v)) + if v == u then Names(names) else {}
    {
      for i := 0 to |names|
        invariant WellFormed(State())
        invariant forall v :: RoleNames(State(), v) ==
                    old(RoleNames(State(), v)) + if v == u then Names(names[..i]) else {}
      {
        assert names[..i + 1] == names[..i] + [names[i]];
        AppendName(names[..i], names[i]);
        var role := GetRoleByName(names[i]);
        var id: Id;
        if role.Some? {
          id := role.value;
        } else {
          id := CreateRole(names[i]);
        }
        var _ := AssignRoleToUser(u, id);
      }
      assert names[..|names|] == names;
    }
  }
}
