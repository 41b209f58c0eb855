/** The profile store (internal/storage/mock/repositories.go). */
module ProfileRepositories {
  import opened Common
  import opened Profiles
  import opened SyncSpec

  class ProfileRepository {
    var profiles: People

    constructor ()
      ensures profiles == map[]
    {
      profiles := map[];
    }

    /** Stores a new profile, under a fresh identifier if it has none, unless its BSA ID is taken. */
    method Create(p: Profile) returns (created: Option<Profile>)
      modifies this
      ensures created.None? <==> p.bsaId != "" && HasBsa(old(profiles), p.bsaId)
      ensures created.None? ==> profiles == old(profiles)
      ensures created.Some? ==> created.value == p.(id := created.value.id)
      ensures created.Some? && p.id != NO_ID ==> created.value == p
      ensures created.Some? && p.id == NO_ID ==> created.value.id !in old(profiles) && created.value.id != NO_ID
      ensures created.Some? ==> profiles == old(profiles)[created.value.id := created.value]
    {
      if p.bsaId != "" {
        var todo := profiles.Keys;
        while todo != {}
          invariant todo <= profiles.Keys
          invariant forall id | id in profiles && id !in todo :: profiles[id].bsaId != p.bsaId
          modifies {}
        {
          var id := NextKey(todo);
          if profiles[id].bsaId == p.bsaId {
            return None;
          }
          todo := todo - {id};
        }
      }
      var id := p.id;
      if id == NO_ID {
        id := NewId(profiles.Keys + {NO_ID});
      }
      created := Some(p.(id := id));
      profiles := profiles[id := created.value];
    }

    /** Any profile with the given BSA ID. */
    method GetByBSAID(b: string) returns (found: Option<Profile>)
      requires Keyed(profiles)
      ensures found.Some? <==> HasBsa(profiles, b)
      ensures found.Some? ==> found.value.bsaId == b
      ensures found.Some? ==> found.value.id in profiles && profiles[found.value.id] == found.value
    {
      var todo := profiles.Keys;
      while todo != {}
        invariant todo <= profiles.Keys
        invariant forall id | id in profiles && id !in todo :: profiles[id].bsaId != b
      {
        var id := NextKey(todo);
        if profiles[id].bsaId == b {
          return Some(profiles[id]);
        }
        todo := todo - {id};
      }
      return None;
    }

    /** Copies of the profiles with the given status, each once, in any order. */
    method ListByStatus(status: Status) returns (list: seq<Profile>)
      requires Keyed(profiles)
      ensures forall i | 0 <= i < |list| ::
                list[i].id in profiles && profiles[list[i].id] == list[i] && list[i].status == status
      ensures forall i, j | 0 <= i < j < |list| :: list[i].id != list[j].id
      ensures forall id | id in profiles && profiles[id].status == status :: profiles[id] in list
    {
      list := [];
      var todo := profiles.Keys;
      while todo != {}
        invariant todo <= profiles.Keys
        invariant forall i | 0 <= i < |list| ::
                    list[i].id in profiles && list[i].id !in todo && profiles[list[i].id] == list[i]
                    && list[i].status == status
        invariant forall i, j | 0 <= i < j < |list| :: list[i].id != list[j].id
        invariant forall id | id in profiles && id !in todo && profiles[id].status == status :: profiles[id] in list
      {
        var id := NextKey(todo);
        if profiles[id].status == status {
          ghost var before := list;
          list := list + [profiles[id]];
          assert list[|before|] == profiles[id];
          assert forall p | p in before :: p in list;
        }
        todo := todo - {id};
      }
    }

    /** Overwrites a stored profile; an unknown one is refused. */
    method Update(p: Profile) returns (ok: bool)
      modifies this
      ensures ok <==> p.id in old(profiles)
      ensures profiles == if ok then old(profiles)[p.id := p] else old(profiles)
    {
      if p.id !in profiles {
        return false;
      }
      profiles := profiles[p.id := p];
      return true;
    }
  }
}
