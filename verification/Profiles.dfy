/** The people of the unit (internal/domain/profile/profile.go). */
module Profiles {
  import opened Common
  import opened Calendar

  datatype MemberType = Adult | Youth
  datatype Status = Active | Inactive | Disabled

  datatype Profile = Profile(
    id: Id,
    bsaId: string,
    firstName: string,
    lastName: string,
    nickname: string,
    gender: string,
    email: string,
    phone: string,
    birthdate: Instant,
    memberType: MemberType,
    status: Status,
    userId: Option<Id>,
    positions: string)

  function DisplayName(p: Profile): string {
    if p.nickname != "" then p.nickname + " (" + p.firstName + ") " + p.lastName
    else p.firstName + " " + p.lastName
  }

  /** The identifier of a profile that has not been given one. */
  const NO_ID: Id := 0

  /** Profiles are stored under their own identifier. */
  predicate Keyed(profiles: map<Id, Profile>) {
    forall p | p in profiles :: profiles[p].id == p
  }
}
