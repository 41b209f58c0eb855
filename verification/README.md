# Verified model of the scout unit's core state

This project models four stateful parts of the scouting application and proves what they keep.

1. **Event logistics** (`Groups`, `EventStore`, `EventRepository`, `Services`, `EventServices`, `Invariants`,
   `TentSafety`, `Logistics`, `RequestMeaning`, `WithdrawMeaning`, `TableRefinement`, `RepositoryCalls`, `Attendance`,
   `TentRuns`, `RuleChanges`, `StoreMeaning`, `EditMeaning`, `AssignmentMeaning`, `DutyMeaning`, `RunMeaning`).
   `EventRepository` is a class with the repository's maps of nested lists; each method holds the mutex for its whole
   body in the source and is one step here. Every method is proved equal to a function on the repository state, the
   services and event handlers are classes on top of it, and the properties are proved of those functions, over every
   run of requests. `Safe` is the invariant: attendance, one tent and one patrol per profile, one cook per patrol, one
   adult patrol per event, no adult in a youth patrol, one holder per singleton responsibility, distinct names, no
   patrols while cooking is off. Legality of every tent is proved on top, with the exact condition for each request that
   changes the rules (`RuleChanges`). `TableRefinement` relates the lists to the database's tables keyed by event and
   profile, and `RepositoryCalls` and `Attendance` let the calls of overlapping requests interleave.
2. **Tenting rules** (`TentRules`): ages with leap-day birthdays, sibling pairs, and the pairwise rule engine.
3. **Roster sync, role reconciliation and revert** (`Positions`, `Rbac`, `ProfileRepository`, `SyncSpec`,
   `SyncProgress`, `SyncReport`, `SyncService`, `SyncLaws`, `SyncMeaning`, `SyncUndo`, `EmptyIds`). `Synced` is a
   relation between the stores before and after a sync and its report that does not mention the order in which members
   are visited. `Sync`, whose loops visit Go maps in an arbitrary order, is proved to establish it for all rosters; the
   fixpoint, the final state, order independence and the undo are consequences of the relation.
4. **One-time codes** (`Otp`, `OtpProtocol`, `OtpMeaning`, `OtpLimits`, `OtpBursts`, `OtpRaces`): the code table, the
   two handlers, and a state machine in which any number of verifications and the steps of any number of registrations
   interleave with the clock and clean-ups.

`Common`, `Profiles` and `Names` hold shared vocabulary and the numbered names. The modules called ...Meaning describe
what each operation does without naming the functions that specify it, and what it leaves alone.

Identifiers are integers (only equality and the total order matter); a new UUID is an identifier that is not in use. Go
map iteration is `NextKey`, any key still to be visited. Go's `int` is bounded where names are parsed and printed.

The e-mail that carries a code says that it expires after thirty minutes
(`internal/email/templates/otp_verification.txt:5`); in the code it is ten (`internal/domain/otpcode/otpcode.go:11`),
and the model follows the code.

Places where the code does not do what one might expect, with the exact condition and an input for each:

- The limit of five codes per hour counts stored codes. A clean-up that drops a code younger than an hour lets a sixth
  be created, and with registrations that do not overlap nothing else does (`OtpLimits.CleanupBreaksLimitIff`). Whatever
  the clean-ups, it is at most five per lifetime of a code and thirty per hour, and thirty are reached
  (`OtpBursts.LifetimeLimit`, `OtpBursts.ThirtyPerHour`, `OtpBursts.ThirtyAreReached`). With k registrations under way
  at one time and no such clean-up the bound is 4 + k, and it is reached (`OtpRaces.OverlappingLimit`,
  `OtpRaces.OverlappingLimitIsTight`).
- An address gets a second live code exactly when a registration creates its code while the address has one
  (`OtpLimits.OneLiveStepIff`): because another registration overlaps (`OtpLimits.InterleavedRegistrations`), or because
  the invalidation failed, which is only logged (`OtpLimits.SkippedInvalidation`).
- A code can still be won after its successor was issued if and only if it is unused, has expired, and a verification
  with the right code was admitted before (`OtpProtocol.LateWinIff`, `OtpProtocol.SupersededCodeCanWin`).
- `ReconcileRoles` leaves protected roles out of the current names, so a position that names a protected role is
  reported as added at every sync, and a revert then removes a role the user had before (`SyncLaws.RevertUndoesSync`,
  `SyncUndo.AdminIsLost`).
- A roster member without an ID is looked up like any other and so overwrites some profile without a BSA ID, whichever
  the lookup finds (`SyncLaws.PickDeterminedIff`, `SyncLaws.EmptyIdTakesAnybody`), and a second sync may overwrite
  another (`SyncLaws.SecondSyncIff`, `EmptyIds.SecondSyncOverwritesAnother`). A missing ID in the roster's data decodes
  to the empty one.
- A revert looks the profile up by the BSA ID of the snapshot. That leads to the entry's own profile if and only if the
  ID is not empty or only one profile lacks one (`SyncUndo.RevertTargetIff`, `EmptyIds.RevertTakesAnother`). The handler
  refuses an empty ID, so what a sync did to a profile without one stays (`SyncUndo.UndoEverything`).
- The withdrawal cascade removes four fixed responsibilities; a free-text one survives its holder's withdrawal
  (`WithdrawMeaning.WithdrawalTakes`, `TentRuns.FreeTextDutySurvivesWithdrawal`).
- A driver row refers to an attendance row (`migrations/00003_refactor_event_attendees.sql:23`), and a withdrawal leaves
  that row behind as canceled. So somebody who has signed up and withdrawn can be added as a driver, and nobody else who
  does not attend (`WithdrawMeaning.AddDriverIff`, `WithdrawMeaning.WithdrawnDriver`).
- No tent is checked when an event's start moves, the age limit is set or a connection's status changes.
  `RuleChanges.StepLegalIff` says for each of them which scouts who share a tent would have to be compared
  (`RuleChanges.MovedStartBreaksRule`, `RuleChanges.LoweredLimitBreaksRule`, `RuleChanges.RevokedLinkBreaksRule`).
- Checking a tent and storing the scout are two repository steps. `TentRuns.PlacementLegalIff` states what the second
  step relies on, `TentRuns.RacingAssignments` what happens when two requests overlap.
- Overlapping requests can store a responsibility for somebody who has withdrawn, or a patrol after cooking was switched
  off (`RepositoryCalls.CallSafeIff`, `RepositoryCalls.LateDuty`, `RepositoryCalls.LatePatrol`). In every interleaving
  without such a responsibility, and only in those, everybody in a place attends or has a withdrawal still running
  (`Attendance.InterleavingsAttended`).

## Model

| member | source | states |
|---|---|---|
| `Calendar.AgeWholeYears` | internal/domain/event/tent_rules.go:52-69 | the loop-free age computation equals the age read off the anniversary that falls in the given year |
| `Calendar.AgeCountsAnniversaries` | internal/domain/event/tent_rules.go:52-73 | age is the largest k whose k-th anniversary (29 February falling on 28 February in common years) has been reached, and 0 before birth |
| `Calendar.LeapDayBirthday` | internal/domain/event/tent_rules.go:60-73 | born on 29 February one is a year older from 28 February on in a common year and from 29 February on in a leap year, 1900 and the like being common |
| `Calendar.OtherBirthday` | internal/domain/event/tent_rules.go:52-69 | anybody else is a year older from the same day of the same month on, and 0 until the year after birth |
| `Calendar.AgeGrowsWithTime` | internal/domain/event/tent_rules.go:52-73 | age never decreases as the date advances |
| `Calendar.EarlierBirthIsOlder` | internal/domain/event/tent_rules.go:52-73 | whoever is born earlier is at least as old on every date |
| `Calendar.AgeGapIsStable` | internal/domain/event/tent_rules.go:52-73 | once both scouts are born their age difference moves by at most one over all dates |
| `TentRules.SiblingPairs` | internal/domain/event/tent_rules.go:29-43 | the parent index and its nested loops yield exactly the normalised pairs of youths listed under one parent |
| `TentRules.SiblingsByParent` | internal/domain/event/tent_rules.go:29-43 | the pairs collected per parent are the pairs of links with one parent, in whatever order parents are visited |
| `TentRules.SiblingsShareAParent` | internal/domain/event/tent_rules.go:29-50 | two distinct scouts are siblings if and only if some parent is linked to both |
| `TentRules.MoreLinksMoreSiblings` | internal/domain/event/tent_rules.go:29-43 | further links never remove a sibling pair |
| `TentRules.ValidateTent` | internal/domain/event/tent_rules.go:118-175 | the loops report exactly the specified violations in reporting order: never-alone, mixed gender, then one entry per offending pair |
| `TentRules.CompareAges` | internal/domain/event/tent_rules.go:146-171 | a pair yields no entry when siblings or within the limit, else one entry that names the older scout first |
| `TentRules.OffendingPairsMembers` | internal/domain/event/tent_rules.go:144-174 | membership in the set of offending pairs is exactly: ordered positions of scouts who may not share |
| `TentRules.GapsCountOffenders` | internal/domain/event/tent_rules.go:144-174 | the age-gap entries are exactly as many as the offending pairs |
| `TentRules.ViolationsMeaning` | internal/domain/event/tent_rules.go:118-175 | entry by entry: never-alone for a single scout and on demand only, mixed gender with all names in order when two genders differ, and for exactly the pairs who may not share one that names the older first, the difference in years, the younger and the limit |
| `TentRules.MixedGenderFirst` | internal/domain/event/tent_rules.go:128-143 | mixed genders are reported first, and after that the pairs |
| `TentRules.PairsInOrder` | internal/domain/event/tent_rules.go:144-174 | the pairs of the first scout come before those of the second and so on, each in the order of the other scouts |
| `TentRules.BlockingEmptyIffLegal` | internal/domain/event/tent_rules.go:110-175 | no blocking violation if and only if all genders agree and every pair may share |
| `TentRules.LegalHereditary` | internal/domain/event/tent_rules.go:118-175 | any part of a legal tent, in any order, is legal |
| `TentRules.LegalMonotone` | internal/domain/event/tent_rules.go:118-175 | a wider age limit and more siblings keep a legal tent legal |
| `Names.AtoiInvertsItoa` | internal/domain/event/tent.go:12-25 | parsing inverts printing for every Go int, sign included |
| `Names.NumberInvertsNextName` | internal/domain/event/cooking_patrol.go:14-27 | the number of a generated tent or patrol name is the number it was generated from |
| `Names.PrintedNames` | internal/domain/event/tent.go:10-14 | the first tent is "Tent 1", the twelfth patrol "Cooking 12", the patrol of the adults "Adults" |
| `Names.NoLeadingZero` | internal/domain/event/tent.go:12-14 | the printed form of a positive number does not begin with a zero |
| `Names.NextNameInjective` | internal/domain/event/tent.go:12-14 | different numbers give different names |
| `GroupInvariants.FreshNameIsNew` | internal/storage/mock/repositories.go:771-779 | a new name is numbered above every number in use, so no live group has it |
| `Groups.FirstMatchSuffices` | internal/storage/mock/repositories.go:850-862 | deleting only the first match removes the profile everywhere, because nobody is listed twice |
| `Groups.PlaceAtExclusive` | internal/storage/mock/repositories.go:802-846 | moving a profile keeps everybody in at most one group, once |
| `Groups.PlaceRefinesUpsert` | internal/storage/postgres/event_repository.go:869-889 | assigning on the nested lists is the upsert of the one row keyed by the profile |
| `Groups.RemoveRefinesDelete` | internal/storage/postgres/event_repository.go:680-686 | removing the first match on the nested lists is the deletion of the one row |
| `Groups.ClearRefinesUpdate` | internal/storage/postgres/event_repository.go:728-734 | clearing the flags of one group in place is the update of that group's rows |
| `Groups.ReflagRefinesUpdates` | internal/storage/postgres/event_repository.go:688-726 | leaving the flag on one profile is the pair of updates: lower the group, raise the row |
| `Groups.DropGroupRefinesDelete` | migrations/00019_event_tents.sql:13-20 | dropping a group from the list is the deletion of its member rows |
| `TableRefinement.AssignTentMemberRefines` | internal/storage/postgres/event_repository.go:869-889 | over all events, assigning an attendee upserts the row of event and profile if the tent belongs to the event, and is refused otherwise |
| `TableRefinement.RemoveTentMemberRefines` | internal/storage/postgres/event_repository.go:891-897 | removal deletes that row and no other |
| `TableRefinement.DeleteTentRefines` | migrations/00019_event_tents.sql:13-20 | deleting a tent deletes its rows, whatever the event |
| `TableRefinement.AssignPatrolMemberRefines` | internal/storage/postgres/event_repository.go:658-678 | assigning upserts the row as a non-cook if the patrol belongs to the event, and is refused otherwise |
| `TableRefinement.RemovePatrolMemberRefines` | internal/storage/postgres/event_repository.go:680-686 | removal deletes that row and no other |
| `TableRefinement.DeletePatrolRefines` | migrations/00018_cooking_patrols.sql:20-30 | deleting a patrol deletes its rows, whatever the event |
| `TableRefinement.ClearCookRefines` | internal/storage/postgres/event_repository.go:728-734 | clearing runs over all events and lowers the flags of the one patrol |
| `TableRefinement.SetCookRefines` | internal/storage/postgres/event_repository.go:688-726 | setting succeeds exactly for a member of the patrol, and then is the pair of updates on its rows |
| `StoreMeaning.CreateTentMeaning` | internal/storage/mock/repositories.go:765-786 | a known event gets one more empty tent with the new identifier, named "Tent " and one above the highest number, and nothing else changes; an unknown one is refused |
| `StoreMeaning.CreatePatrolMeaning` | internal/storage/mock/repositories.go:600-633 | a known event gets one more empty patrol, numbered likewise or the one named "Adults" if there is none of the adults yet, and nothing else changes |
| `StoreMeaning.DeleteTentMeaning` | internal/storage/mock/repositories.go:788-800 | no tent with the identifier is left, all others stay in order, and the answer tells whether there was one |
| `StoreMeaning.DeletePatrolMeaning` | internal/storage/mock/repositories.go:635-647 | the same for patrols |
| `StoreMeaning.DeleteEventMeaning` | internal/storage/mock/repositories.go:467-476 | a known event goes with its attendance, and nothing of any other event |
| `StoreMeaning.TentMovesKeepTents` | internal/storage/mock/repositories.go:802-862 | assigning and removing members neither creates nor deletes nor renames a tent |
| `StoreMeaning.PatrolMovesKeepPatrols` | internal/storage/mock/repositories.go:649-709 | nor a patrol |
| `StoreMeaning.CooksKeepPatrols` | internal/storage/mock/repositories.go:711-747 | nor do setting and clearing a cook |
| `StoreMeaning.WithdrawalKeepsGroups` | internal/api/events.go:1183-1204 | nor does a withdrawal |
| `StoreMeaning.TentRefusals` | internal/storage/mock/repositories.go:802-820 | an assignment to a tent is refused without effect for an unknown event, tent or profile and for a non-attendee, in this order, and succeeds otherwise |
| `StoreMeaning.PatrolRefusals` | internal/storage/mock/repositories.go:649-667 | the same for patrols |
| `StoreMeaning.AttendanceRefusals` | internal/storage/mock/repositories.go:551-584 | signing up and withdrawing are refused without effect for unknown events and profiles, and repeated ones succeed without effect |
| `EventRepositories.EventRepository.Delete` | internal/storage/mock/repositories.go:467-476 | deletes a known event with its attendees and all record of who had signed up; its tents, patrols and responsibilities stay in their maps |
| `EventRepositories.EventRepository.SignUp` | internal/storage/mock/repositories.go:551-568 | new state and reply equal the specification: idempotent, unknown event or profile refused |
| `EventRepositories.EventRepository.Withdraw` | internal/storage/mock/repositories.go:570-584 | splices the first match out of the attendees and remembers that it had signed up; succeeds when the profile was not signed up |
| `EventRepositories.EventRepository.CreateTent` | internal/storage/mock/repositories.go:765-786 | appends an empty tent named one above the highest number found by the loop |
| `EventRepositories.EventRepository.DeleteTent` | internal/storage/mock/repositories.go:788-800 | finds the tent in whatever event holds it and drops it; unknown tents are refused |
| `EventRepositories.EventRepository.AssignTentMember` | internal/storage/mock/repositories.go:802-848 | takes the profile out of every tent of the event and appends it to the target; the four refusals change nothing |
| `EventRepositories.EventRepository.RemoveTentMember` | internal/storage/mock/repositories.go:850-862 | splices the first match in the first tent that has it |
| `EventRepositories.EventRepository.CreateCookingPatrol` | internal/storage/mock/repositories.go:600-633 | appends an empty patrol with the next number or as the adult patrol; a second adult patrol is refused |
| `EventRepositories.EventRepository.DeleteCookingPatrol` | internal/storage/mock/repositories.go:635-647 | finds the patrol in whatever event holds it and drops it |
| `EventRepositories.EventRepository.AssignCookingPatrolMember` | internal/storage/mock/repositories.go:649-695 | moves the profile to the patrol without the cook flag; the refusals change nothing |
| `EventRepositories.EventRepository.RemoveCookingPatrolMember` | internal/storage/mock/repositories.go:697-709 | splices the first match in the first patrol that has it |
| `EventRepositories.EventRepository.SetCookingPatrolCook` | internal/storage/mock/repositories.go:711-731 | leaves the cook flag on the profile only; for a non-member it clears the flags and fails |
| `EventRepositories.EventRepository.ClearCookingPatrolCook` | internal/storage/mock/repositories.go:733-747 | clears the flags of the patrol in whatever event holds it, and of no other patrol |
| `EventRepositories.EventRepository.UpdateWithCooking` | internal/storage/mock/repositories.go:396-465 | stores the event and, when cooking is switched, deletes the patrols or seats the attending adults |
| `EventRepositories.EventRepository.AssignResponsibility` | internal/storage/mock/repositories.go:1294-1347 | appends the assignment once; a singleton that somebody holds is refused and the holder reported |
| `EventRepositories.EventRepository.RemoveResponsibility` | internal/storage/mock/repositories.go:1349-1360 | splices the first matching assignment |
| `EventRepositories.EventRepository.AddDriver` | internal/storage/postgres/event_repository.go:338-346 | whoever has an attendance row of the event, canceled or not, gets the driver row, once; anybody else is refused and nothing changes |
| `EventRepositories.EventRepository.RemoveDriver` | internal/storage/postgres/event_repository.go:348-355 | the driver row is gone |
| `EventServices.TentService.ProspectiveScouts` | internal/domain/event/tent_service.go:159-174 | the tent as it would be, in list order, with the added profile once; fails on a member without a profile |
| `EventServices.TentService.AssignMember` | internal/domain/event/tent_service.go:60-113 | reply and new state equal the specification: youth only, idempotent, blocked by violations of the prospective tent, else stored |
| `EventServices.TentService.ValidTargetTents` | internal/domain/event/tent_service.go:121-157 | the loop returns the tents other than the excluded one whose prospective tent has no violation, in list order |
| `EventServices.CookingPatrolService.AfterSignUp` | internal/domain/event/cooking_service.go:21-55 | an adult joins the adult patrol of a cooking event, which is created when missing |
| `EventServices.CookingPatrolService.Leave` | internal/domain/event/cooking_service.go:57-72 | the loop clears the cook of the patrols the profile cooks for, then removes the profile |
| `EventServices.CookingPatrolService.AssignMember` | internal/domain/event/cooking_service.go:74-96 | an adult is refused in a patrol that is not the adult patrol; otherwise the repository decides |
| `EventServices.EventHandler.EventCreate` | internal/api/events.go:700-717 | the creator is signed up, becomes coordinator and joins the adult patrol |
| `EventServices.EventHandler.EventEdit` | internal/api/events.go:908-930 | the edit passes the previous cooking setting to the repository |
| `EventServices.EventHandler.SignUp` | internal/api/events.go:1032-1049 | sign-up, then the senior patrol leader, then the adult patrol |
| `EventServices.EventHandler.Withdraw` | internal/api/events.go:1183-1204 | withdrawal, then the responsibilities, the patrol and the tent |
| `EventServices.EventHandler.ToggleResponsibility` | internal/api/events.go:1717-1750 | removes a held assignment, else assigns, else takes it from the holder and assigns again |
| `PatrolInvariants.PlaceOk` | internal/storage/mock/repositories.go:649-695 | moving a profile into a patrol keeps one cook per patrol, one patrol per profile, and adults out of youth patrols |
| `PatrolInvariants.ReflagOk` | internal/storage/mock/repositories.go:711-747 | setting or clearing a cook keeps at most one cook per patrol |
| `PatrolInvariants.EnableCookingOk` | internal/storage/mock/repositories.go:411-464 | switching cooking on keeps the patrol invariant and seats every given adult in the adult patrol |
| `TentInvariants.PulledTentLegal` | internal/storage/mock/repositories.go:821-832 | the tent a scout leaves stays legal |
| `TentInvariants.TargetIsProspective` | internal/domain/event/tent_service.go:95-113 | the tent a scout joins ends as exactly the list that was validated |
| `TentInvariants.PlaceLegal` | internal/domain/event/tent_service.go:95-113 | storing a scout whose prospective tent has no blocking violation keeps every tent of the event legal |
| `TentInvariants.MonotoneLegal` | internal/domain/event/tent_rules.go:118-175 | raising the limit or adding links keeps every tent of an event legal |
| `Logistics.HandleEditSafe` | internal/storage/mock/repositories.go:396-465 | an edit keeps the invariant, and right after cooking is enabled every attending adult is in the adult patrol |
| `EditMeaning.EnableCookingMeaning` | internal/storage/mock/repositories.go:411-464 | switching cooking on keeps every patrol in place and moves exactly the given adults, as non-cooks, to the adult patrol, which is new and named "Adults" if there was none |
| `EditMeaning.HandleEditMeaning` | internal/api/events.go:908-930 | an edit that leaves cooking as it was changes the event alone; switching it off takes the patrols of the event away; switching it on moves exactly the attending adults; tents, attendance, responsibilities and all other events stay |
| `Logistics.HandleWithdrawSafe` | internal/api/events.go:1183-1204 | a withdrawn profile is no attendee, in no tent and in no patrol; of all responsibilities exactly its own non-free-text ones are gone |
| `Logistics.StepSafe` | internal/api/events.go:1183-1204 | every request with fresh identifiers keeps the whole invariant |
| `Logistics.RunsAreSafe` | internal/storage/mock/repositories.go:551-862 | every run of requests from an empty store ends in a state with the whole invariant: attendance, exclusivity, cooks, adult patrols, singletons, names, cooking gate |
| `RunMeaning.RunsInWords` | internal/storage/mock/repositories.go:551-862 | after every run, in so many words: whoever is in a tent or patrol attends and has no second place, only youths are in tents, adults only in the one patrol of the adults, a patrol has one cook at most, without cooking there are no patrols, and names and identifiers are distinct |
| `RunMeaning.TentEffects` | internal/domain/event/tent_service.go:60-113 | which tent a request creates, deletes, fills or empties, for every request about tents |
| `RunMeaning.PatrolEffects` | internal/domain/event/cooking_service.go:57-96 | the same for every request about patrols, none of which does anything while cooking is off |
| `RunMeaning.EventEffects` | internal/api/events.go:700-930 | which events and attendees there are after a creation, edit, deletion, sign-up or withdrawal |
| `RunMeaning.DutyEffects` | internal/api/events.go:1717-1750 | a toggle turns the assignment over, and drivers are there when added and gone when removed |
| `RunMeaning.RuleEffects` | internal/api/admin.go:579-616 | connections and the age limit change by the requests for that and by no other |
| `TentRuns.PlainStepLegal` | internal/domain/event/tent_service.go:60-113 | every request that leaves starts, connections and the limit alone keeps every tent legal |
| `RuleChanges.StepLegalIff` | internal/api/events.go:908-930 | a request keeps every tent legal if and only if: for a new start, those who share a tent of that event and are no siblings are within the limit on that day; for a new limit, all who share a tent anywhere and are no siblings are within it; for a new status, those who share a tent and thereby cease to be siblings are within the limit; any other request always does |
| `RuleChanges.LostShareTheParent` | internal/domain/event/tent_service.go:185-201 | siblings who cease to be so by a new status share the parent of that connection, which was approved before and is not now, and one of them is its scout |
| `RuleChanges.LooserRulesFit` | internal/domain/event/tent_rules.go:118-175 | starts that stay, a limit that is not lowered and siblings that remain always fit |
| `RuleChanges.NewConnectionKeepsLegal` | internal/domain/event/tent_service.go:185-201 | a further connection, approved or not, keeps every tent legal |
| `RuleChanges.ApprovalFits` | internal/api/admin.go:579-581 | approving a connection takes no sibling away and always fits |
| `RuleChanges.MovedStartBreaksRule` | internal/api/events.go:908-930 | a legal tent that an edit of the start by one day makes illegal |
| `RuleChanges.LoweredLimitBreaksRule` | internal/api/admin_settings.go:199-204 | a legal tent that a lower limit makes illegal |
| `RuleChanges.RevokedLinkBreaksRule` | internal/api/admin.go:587-589 | a legal tent of two siblings that the removal of one connection makes illegal |
| `RuleChanges.RunsLegalIff` | internal/domain/event/tent_service.go:60-113 | over every run of requests all tents are legal all the time if and only if every change of the rules fits those who share a tent |
| `RuleChanges.RunsKeepTentsLegal` | internal/domain/event/tent_service.go:60-113 | over every run whose rule changes fit, every tent of every event is legal at the end |
| `RuleChanges.NoTentIsBlocked` | internal/domain/event/tent_service.go:60-113 | after every such run the rule engine reports no blocking violation for any tent |
| `TentRuns.PlacementLegalIff` | internal/domain/event/tent_service.go:95-113 | storing a scout keeps every tent legal if and only if the check passes on the tent as it is at that moment |
| `TentRuns.RacingAssignments` | internal/domain/event/tent_service.go:60-113 | for every limit and set of links, two checks on one state followed by two placements fill a tent that the rules forbid |
| `TentRuns.OneTentOffered` | internal/domain/event/tent_service.go:60-113 | a tent without the scout accepts the assignment if and only if the prospective tent has no blocking violation |
| `TentRuns.OfferedTentsAccept` | internal/domain/event/tent_service.go:121-157 | of every initial part of the tent list, the tents offered to a youth attendee are exactly those whose assignment would succeed, in list order |
| `TentRuns.TargetsAreExact` | internal/domain/event/tent_service.go:121-174 | with the current tent excluded no lookup fails, and the tents offered are exactly those whose assignment would succeed |
| `AssignmentMeaning.TentAcceptsIff` | internal/domain/event/tent_service.go:60-113 | an attending youth is accepted in a tent of the event if and only if it sleeps there already or the tent with it in has one gender and only pairs who are siblings or within the limit |
| `AssignmentMeaning.TentAssignmentMeaning` | internal/domain/event/tent_service.go:60-113 | an accepted assignment upserts the one row of event and scout; any other changes nothing |
| `AssignmentMeaning.TentAssignmentRefusals` | internal/domain/event/tent_service.go:60-85 | unknown profiles, adults, unknown events and unknown tents are refused, in this order |
| `AssignmentMeaning.PatrolAssignmentMeaning` | internal/domain/event/cooking_service.go:74-96 | a profile is assigned if and only if it attends and is no adult or the patrol is that of the adults; then its one row is upserted as a non-cook, otherwise nothing changes |
| `RequestMeaning.AfterSignUpSeats` | internal/domain/event/cooking_service.go:21-55 | seating an adult moves exactly that adult's row to the adult patrol, as a non-cook |
| `RequestMeaning.SignUpMeaning` | internal/api/events.go:1032-1049 | the sign-up adds the attendee, makes a leading youth SPL unless somebody else is, seats an adult of a cooking event, and changes nothing else in this event or any other |
| `RequestMeaning.CreateMeaning` | internal/api/events.go:700-717 | the creator is the only attendee and the coordinator, and sits alone in the adult patrol when an adult creates a cooking event; other events are untouched |
| `RequestMeaning.UnknownChangesNothing` | internal/api/events.go:1032-1049 | requests about unknown events or profiles do nothing, and an event without a known creator has no attendee |
| `WithdrawMeaning.LeavePatrolDeletes` | internal/domain/event/cooking_service.go:57-72 | leaving deletes the one row: clearing the cook touches nobody else in any event |
| `WithdrawMeaning.WithdrawalTakes` | internal/api/events.go:1183-1204 | the attendee, its fixed responsibilities, its tent row and its patrol row go; every other attendee, responsibility and row of every event stays, and so does the record of who has signed up |
| `WithdrawMeaning.AddDriverIff` | migrations/00003_refactor_event_attendees.sql:16-25 | where all drivers of an event attend, adding one breaks that if and only if the new one has signed up at some time and does not attend |
| `WithdrawMeaning.WithdrawnDriver` | internal/storage/postgres/event_repository.go:303-346 | a run of sign-up, withdrawal and adding a driver after which a driver does not attend |
| `RepositoryCalls.SignedUpIff` | internal/storage/postgres/event_repository.go:294-311 | somebody has signed up after a call if and only if the call is that sign-up, or they had before and the call does not delete the event |
| `WithdrawMeaning.WithdrawalKeepsDrivers` | internal/api/events.go:1189-1194 | if all drivers attend before a withdrawal, they do after it |
| `RepositoryCalls.CallKeepsLists` | internal/storage/mock/repositories.go:551-862 | no repository call breaks the well-formedness of the lists, however stale what its handler read |
| `RepositoryCalls.InterleavingsKeepLists` | internal/storage/mock/repositories.go:551-862 | the lists are well formed after every interleaving of the calls of any requests |
| `RepositoryCalls.CallSafeIff` | internal/api/events.go:1717-1750 | a call keeps attendance and the cooking gate if and only if it strands no non-attendee in a place and leaves no patrol without cooking |
| `RepositoryCalls.LateDuty` | internal/storage/mock/repositories.go:1294-1347 | an interleaving in which somebody who has withdrawn gets a responsibility |
| `RepositoryCalls.LatePatrol` | internal/api/events.go:1764-1789 | an interleaving in which a patrol is created after cooking was switched off |
| `Attendance.EntitledIff` | internal/api/events.go:1183-1204 | where every place is held by an attendee or by somebody whose withdrawal has not come to the call that clears it, a call keeps that if and only if it gives no singleton responsibility to anybody else |
| `Attendance.InterleavingsAttended` | internal/api/events.go:1183-1204 | over every interleaving, that holds all the time if and only if no call misassigns a responsibility |
| `Attendance.AttendanceRestored` | internal/api/events.go:1183-1204 | in such an interleaving attendance holds for an event once every withdrawal from it has run to its end |
| `TentRuns.ToggleMeaning` | internal/api/events.go:1717-1750 | a toggle by an attendee succeeds and is described assignment by assignment: a holder loses it, a non-holder becomes the sole holder, all else stays |
| `TentRuns.ToggleReplaces` | internal/api/events.go:1731-1744 | the remove-and-retry path takes exactly the old holder's assignment out and appends the new one |
| `DutyMeaning.RunsHaveOneHolder` | internal/domain/event/event.go:44-52 | after every run an event has at most one senior patrol leader, one coordinator and one medical officer, and each attends |
| `DutyMeaning.AssignMeaning` | internal/storage/mock/repositories.go:1294-1347 | of these three each is given if nobody else has it and otherwise refused with the holder named; any other responsibility is given whoever has it; all other assignments stay in place |
| `DutyMeaning.RemoveMeaning` | internal/storage/mock/repositories.go:1349-1360 | exactly the one assignment goes |
| `DutyMeaning.AddDriverMeaning` | internal/storage/postgres/event_repository.go:338-346 | whoever attends or has withdrawn is made a driver, once, whoever else drives; anybody else is refused without effect |
| `DutyMeaning.RemoveDriverMeaning` | internal/storage/postgres/event_repository.go:348-355 | exactly that driver goes |
| `DutyMeaning.ToggleByName` | internal/api/events.go:1717-1750 | a toggle of one of the three by a non-holder leaves that attendee its sole holder; a free-text one is taken from nobody; other responsibilities stay |
| `DutyMeaning.ToggleRefusals` | internal/api/events.go:1694-1716 | toggles of the driver, for an unknown event or by a non-attendee are refused without effect |
| `TentRuns.FreeTextDutySurvivesWithdrawal` | internal/api/events.go:1189-1194 | a state in which a withdrawn profile keeps a free-text responsibility |
| `Positions.JoinStrings` | internal/scoutbook/types.go:71-80 | the loop yields the names with the separator between them |
| `Positions.DecodePositions` | internal/scoutbook/types.go:61-68 | the stored field joins the non-empty positions received |
| `Positions.SplitInvertsJoinIff` | internal/scoutbook/types.go:61-80 | splitting the joined text gives the names back if and only if there are names and none contains the separator |
| `Positions.JoinInvertsSplit` | internal/domain/rbac/reconcile.go:29-34 | joining the split text gives every text back |
| `Positions.TargetsAreReceivedIff` | internal/domain/rbac/reconcile.go:29-34 | reconciliation sees exactly the non-empty positions received, the empty list giving none, if and only if no position contains the separator |
| `Positions.PositionsAsWritten` | internal/domain/rbac/reconcile.go:29-34 | the two names Cook and Scribe are written "Cook, Scribe" and read back from there |
| `RoleRepositories.RBACRepository.CreateRole` | internal/storage/mock/repositories.go:92-106 | returns the role of that name, new or existing; nobody's role names change |
| `RoleRepositories.RBACRepository.AssignRoleToUser` | internal/storage/mock/repositories.go:124-137 | adds the name to that user's roles only; unknown roles are refused; no duplicates arise |
| `RoleRepositories.RBACRepository.RemoveRoleFromUser` | internal/storage/mock/repositories.go:157-168 | splicing the first match removes the name from that user's roles only; an unknown role is nobody's |
| `RoleRepositories.RBACRepository.UnprotectedNames` | internal/domain/rbac/reconcile.go:16-27 | the current names are those of the user's roles, protected ones left out |
| `RoleRepositories.RBACRepository.ReconcileRoles` | internal/domain/rbac/reconcile.go:10-68 | leaves the protected roles held and the target positions, reports the added and removed names once each, and touches no other user |
| `RoleRepositories.RBACRepository.RevertRoles` | internal/domain/sync/service.go:352-376 | drops the names that were added, gives back those that were removed, and touches no other user |
| `RoleSpec.ReportedDifferences` | internal/domain/rbac/reconcile.go:36-65 | the reported sets turn the old roles into the new; the added ones are the exact difference if and only if no position is a protected role already held |
| `RoleSpec.ProtectedRolesStay` | internal/domain/rbac/reconcile.go:16-65 | protected roles are never removed, whatever the positions |
| `RoleSpec.ReconciledMeaning` | internal/domain/rbac/reconcile.go:10-65 | role by role: held afterwards are the named ones and those of parent, admin and Scouts BSA held before; removed are the other ones held before and not named; added are the named ones but for the others held before |
| `RoleSpec.RevertRestoresIff` | internal/domain/rbac/reconcile.go:36-65 | undoing the report restores the roles if and only if no position is a protected role already held |
| `RoleSpec.ReconcileIsStable` | internal/domain/rbac/reconcile.go:16-65 | reconciling again changes nothing, and reports exactly the positions that are protected roles |
| `ProfileRepositories.ProfileRepository.Create` | internal/storage/mock/repositories.go:891-907 | refuses a BSA ID that is taken, else stores under the given identifier, or a fresh one if none is given |
| `ProfileRepositories.ProfileRepository.GetByBSAID` | internal/storage/mock/repositories.go:932-942 | finds a profile with the ID if and only if there is one |
| `ProfileRepositories.ProfileRepository.ListByStatus` | internal/storage/mock/repositories.go:967-978 | lists exactly the profiles with the status, each once, in any order |
| `SyncSpec.MergeKeyed` | internal/domain/sync/service.go:270-312 | every merged entry is filed under its own ID and comes from one of the rosters |
| `SyncSpec.MergeMeaning` | internal/domain/sync/service.go:270-312 | the merged roster has exactly the listed IDs, and for each the last adult with it or, without one, the first youth |
| `SyncServices.Deduplicate` | internal/domain/sync/service.go:270-312 | lists, in an arbitrary order and once each, exactly the members whose data count: the last adult with an ID and, if no adult has it, the first youth |
| `SyncServices.IsAdult` | internal/domain/sync/service.go:321-328 | adult means listed among the adults |
| `SyncServices.OverlayFields` | internal/domain/sync/service.go:92-151 | the field-by-field copy is the roster overlay, and the flag is raised if and only if the profile changed |
| `SyncServices.SyncService.CreateMember` | internal/domain/sync/service.go:55-89 | adds one profile with the roster data and reports it |
| `SyncServices.SyncService.UpdateMember` | internal/domain/sync/service.go:90-186 | stores the overlay, reconciles the user's roles, and reports if and only if the profile or the roles changed |
| `SyncServices.SyncService.VisitActive` | internal/domain/sync/service.go:193-216 | deactivates an active profile that has an ID and is not on the roster, and leaves one without an ID alone |
| `SyncProgress.UpdateStep` | internal/domain/sync/service.go:52-187 | processing a member with a profile keeps the account of what the sync has done so far |
| `SyncProgress.CreateStep` | internal/domain/sync/service.go:52-187 | processing a member without a profile keeps that account |
| `SyncProgress.AtTheEnd` | internal/domain/sync/service.go:52-217 | once all members and all active profiles are visited the account is the promised outcome |
| `SyncServices.SyncService.Sync` | internal/domain/sync/service.go:28-231 | for all rosters, establishes the order-free outcome relation and returns the report in strict order of name and member ID with its counters |
| `SyncServices.SyncService.Revert` | internal/domain/sync/service.go:330-379 | writes the snapshot back to a profile with its ID, undoes the reported role changes, and fails only when no profile has the ID |
| `SyncServices.SyncService.RevertRequest` | internal/api/sync.go:271-285 | refuses a snapshot without an ID; otherwise the profile it reverts is the only one with the ID |
| `SyncReport.ComputeCounters` | internal/domain/sync/service.go:233-251 | the loop computes the tally of the report |
| `SyncReport.TallyInsert` | internal/domain/sync/service.go:218-226 | the place of an entry in the report does not matter to the counters |
| `SyncReport.SortEntries` | internal/domain/sync/service.go:220-226 | the report in strict order, with the same entries and the same tally |
| `SyncReport.CountersAddUp` | internal/domain/sync/service.go:218-251 | the counters add up to the report length; created and deactivated are the exact numbers of profiles added and switched to inactive |
| `SyncMeaning.EntryCounts` | internal/domain/sync/service.go:233-251 | every entry counts once, by its status, and with the numbers of roles it lists |
| `SyncLaws.FinalState` | internal/domain/sync/service.go:28-231 | nobody lost or relinked, profiles without an ID untouched but for the one a member without an ID takes; in terms of the two rosters, everybody listed has a profile, which is active if there is an ID, a profile with an ID is active exactly when somebody listed has it, and adult means listed among the adults |
| `SyncMeaning.MemberFields` | internal/domain/sync/service.go:52-151 | the profile of a listed member has its names, gender and positions and is active; email, phone and birth date are the member's where it has them and stay otherwise; identifier, ID and user stay |
| `SyncMeaning.LeaverFields` | internal/domain/sync/service.go:189-216 | a profile with an ID nobody listed has loses the active status and nothing else |
| `SyncMeaning.MemberRoles` | internal/domain/sync/service.go:153-170 | the user of a listed member holds the named roles and, of those held before, exactly parent, admin and Scouts BSA |
| `SyncMeaning.OtherRoles` | internal/domain/sync/service.go:153-170 | everybody else's roles are as before |
| `SyncMeaning.ReportMeaning` | internal/domain/sync/service.go:72-216 | an entry shows all fields of its profile before and after, its display name, and whether it was created, changed, deactivated or left as it was |
| `SyncMeaning.ReportedRoles` | internal/domain/rbac/reconcile.go:36-65 | which roles an entry reports as added and removed |
| `SyncMeaning.WhoIsReported` | internal/domain/sync/service.go:72-216 | reported are exactly the new profiles, the changed ones, and those with a role reported as added or removed |
| `SyncLaws.PickDeterminedIff` | internal/storage/mock/repositories.go:932-942 | which profile every member takes is determined if and only if all members have an ID or at most one profile lacks one |
| `SyncLaws.EmptyIdTakesAnybody` | internal/domain/sync/service.go:52-187 | two profiles without an ID, either of which a member without one may overwrite |
| `SyncLaws.SecondSyncChangesNothing` | internal/domain/sync/service.go:52-231 | a second sync changes no profile and no role when an empty ID finds the same profile again; its report is empty if and only if no registered member's positions name a protected role |
| `SyncLaws.SecondSyncIff` | internal/domain/sync/service.go:52-231 | it changes no profile if and only if an empty ID finds the same profile again or one that already agrees with the roster |
| `EmptyIds.SecondSyncOverwritesAnother` | internal/domain/sync/service.go:52-231 | two syncs of one roster, of which the first overwrites one profile without an ID and the second another |
| `SyncLaws.RevertUndoesSync` | internal/domain/sync/service.go:330-379 | reverting an entry restores the profile and no other; it restores the roles if and only if no position is a protected role already held |
| `SyncMeaning.RestoreFields` | internal/domain/sync/service.go:336-348 | a revert writes back every field of the snapshot but the ID and the user |
| `SyncUndo.RevertTargetIff` | internal/domain/sync/service.go:330-334 | the ID of a snapshot leads to the profile of its entry and no other if and only if it is not empty or only one profile lacks one |
| `SyncUndo.RevertLands` | internal/domain/sync/service.go:330-334 | such an ID leads there in every later state with the same profiles and IDs |
| `EmptyIds.RevertTakesAnother` | internal/domain/sync/service.go:330-348 | a revert that writes the snapshot of one profile over another, both without an ID |
| `SyncUndo.UndoEverything` | internal/domain/sync/service.go:330-379 | reverts of all entries whose snapshot has an ID, each of whatever profile its lookup finds and in any order, restore every profile with an ID; one without stays as the sync left it, unless it is the only one and its entry is reverted too; the roles of a restored user are restored if and only if no position is a protected role already held |
| `SyncUndo.AdminIsLost` | internal/domain/rbac/reconcile.go:16-65 | a person whose sync reports a held role as added every time, and whose revert loses it |
| `SyncLaws.OrderDoesNotMatter` | internal/domain/sync/service.go:41-231 | two syncs of one roster agree on profiles, roles and the sorted report, up to generated identifiers and the order inside the role lists |
| `SyncLaws.SortedReportsMatch` | internal/domain/sync/service.go:220-226 | sorted reports with the same entries are the same entry by entry |
| `SyncMeaning.StrLessMeaning` | internal/domain/sync/service.go:220-226 | the first character that differs decides, and a proper prefix comes first |
| `SyncMeaning.SortedByName` | internal/domain/sync/service.go:220-226 | a sorted report goes by name and, where names are the same, by member ID |
| `OtpRepositories.OTPCodeRepository.CountByEmailSince` | internal/storage/mock/repositories.go:1026-1036 | the loop counts the codes of the address created after the given time |
| `OtpRepositories.OTPCodeRepository.MarkUsedIfUnused` | internal/storage/mock/repositories.go:1038-1050 | succeeds if and only if the code exists unused, and then it is used |
| `OtpRepositories.OTPCodeRepository.IncrementAttempts` | internal/storage/mock/repositories.go:1052-1061 | adds one to the counter of an existing code |
| `OtpRepositories.OTPCodeRepository.InvalidateByEmail` | internal/storage/mock/repositories.go:1063-1072 | exactly the unused unexpired codes of the address become used |
| `OtpRepositories.OTPCodeRepository.DeleteExpired` | internal/storage/mock/repositories.go:1074-1083 | exactly the unexpired codes remain |
| `OtpRepositories.RegistrationHandler.Register` | internal/api/registration.go:121-160 | refused at five codes in the past hour, else the live codes of the address are replaced by a new one |
| `OtpRepositories.RegistrationHandler.BeginVerify` | internal/api/registration.go:222-236 | passes if and only if the code exists, is unexpired, unused and below the attempt limit |
| `OtpRepositories.RegistrationHandler.FinishVerify` | internal/api/registration.go:238-272 | a wrong code costs one attempt, a right one wins if and only if it is still unused |
| `OtpRepositories.RegistrationHandler.Verify` | internal/api/registration.go:222-272 | undisturbed, wins if and only if the code is right and admitted |
| `OtpMeaning.CodeLifetime` | internal/domain/otpcode/otpcode.go:11-58 | a code is admitted for ten minutes to the second, for five tries, and until it is used |
| `OtpMeaning.LimitOfFive` | internal/api/registration.go:121-130 | a registration is refused if and only if five codes of the address were created within the past hour |
| `OtpMeaning.RefusedRegistration` | internal/api/registration.go:121-130 | a registration over the limit changes nothing |
| `OtpMeaning.CodeAfter` | internal/api/registration.go:121-272 | what every step does to every stored code: it goes only by a clean-up after its ten minutes, becomes used only by a right verification or, unexpired, by a registration for its address, counts only its own wrong tries, and keeps address and times |
| `OtpMeaning.CodeCreated` | internal/api/registration.go:132-160 | a code that appears is one that a registration creates for its address: unused, with no attempts, good for ten minutes from now |
| `OtpMeaning.LogAfter` | internal/api/registration.go:121-272 | a right verification of an unused code is recorded as its win, and the voiding of an address as the set of its unused unexpired codes |
| `OtpMeaning.OthersKeepCodes` | internal/storage/mock/repositories.go:1063-1072 | a registration, or its invalidating step, leaves the codes of all other addresses as they are |
| `OtpMeaning.OthersCanWin` | internal/storage/mock/repositories.go:1063-1072 | nor does it change which of them can still be won |
| `OtpMeaning.OwnCodesVoided` | internal/storage/mock/repositories.go:1063-1072 | of the address itself used and expired codes stay as they are and no older code stays live |
| `OtpProtocol.SpentStep` | internal/api/registration.go:222-272 | every step keeps won and invalidated codes used or gone |
| `OtpProtocol.WinsAreUnique` | internal/api/registration.go:222-272 | in every interleaving a code is won at most once and never after it was invalidated |
| `OtpProtocol.CanWinIff` | internal/api/registration.go:222-272 | some continuation wins a code if and only if it is unused and either a new verification would be admitted or one with the right code is in flight |
| `OtpProtocol.LateWinIff` | internal/api/registration.go:121-160 | after a registration for its address an older code can still be won if and only if it is unused, expired, and a right verification is in flight |
| `OtpProtocol.SupersededCodeCanWin` | internal/api/registration.go:222-272 | an interleaving in which that happens |
| `OtpProtocol.AttemptsBounded` | internal/api/registration.go:232-258 | with at most k verifications in flight the counter and the pending wrong tries never exceed MaxAttempts - 1 + k |
| `OtpProtocol.AttemptsBoundIsTight` | internal/api/registration.go:232-258 | for every k some interleaving with at most k in flight reaches that bound |
| `OtpLimits.OneLiveCode` | internal/api/registration.go:132-160 | with atomic registrations every address has at most one unused unexpired code at any time |
| `OtpLimits.OneLiveStepIff` | internal/api/registration.go:132-160 | a step leaves two live codes for an address if and only if it is a separate creation for an address that has one |
| `OtpLimits.InterleavedRegistrations` | internal/api/registration.go:132-160 | two interleaved registrations leave two |
| `OtpLimits.SkippedInvalidation` | internal/api/registration.go:132-134 | two registrations in a row leave two when the invalidation of the second failed |
| `OtpLimits.StoredLimit` | internal/api/registration.go:121-130 | no address ever has more than five stored codes created within one hour, clean-ups included |
| `OtpLimits.HourlyLimit` | internal/api/registration.go:121-130 | at most five codes are created per address and hour when no clean-up drops a code younger than an hour |
| `OtpRaces.OverlappingLimit` | internal/api/registration.go:121-160 | with at most k registrations under way at one time, at most 4 + k codes are created per address and hour, when no clean-up drops a young code |
| `OtpRaces.OverlappingLimitIsTight` | internal/api/registration.go:121-160 | for every k some run with at most k under way creates that many at once |
| `OtpLimits.CompleteStep` | internal/storage/mock/repositories.go:1074-1083 | the count stays complete across a step if and only if the step is no clean-up that drops a young code |
| `OtpLimits.CleanupBreaksLimitIff` | internal/storage/mock/repositories.go:1074-1083 | a clean-up opens the way past the hourly limit if and only if it drops a code younger than an hour |
| `OtpLimits.YoungCodeIsDropped` | internal/domain/otpcode/otpcode.go:11 | a reachable state in which a clean-up drops such a code |
| `OtpBursts.LifetimeLimit` | internal/api/registration.go:121-160 | with registrations that do not overlap, and whatever the clean-ups, at most five codes per address are created within any ten minutes |
| `OtpBursts.ThirtyPerHour` | internal/api/registration.go:121-160 | and at most thirty within any hour |
| `OtpBursts.ThirtyAreReached` | internal/storage/mock/repositories.go:1074-1083 | some run with clean-ups creates thirty for one address within an hour |

## Left out

- HTTP, sessions, templates, e-mail, the roster client, configuration, permissions and logging: no state that the properties speak of.
- Authorisation, past-event, tenting-enabled, drivers-enabled and inactive-profile guards of the handlers: they only refuse requests, so the modelled runs are a superset of the real ones.
- Overlapping requests on the event store in `Logistics`, `TentRuns` and `RuleChanges`: a request is one step of a run there. What overlap does is stated by `PlacementLegalIff`, `RacingAssignments` and, for all other calls, `RepositoryCalls` and `Attendance`.
- Message texts: violations are structured values; the names and numbers that fill the texts are kept.
- Changes to a profile's member type, gender or birth date during a run of event requests: fixed per run, as they can invalidate placements already made.
- RuleChanges.RunsKeepTentsLegal: of requests that move an event's start, set the age limit, or approve, reject or revoke a connection it takes only those that fit the scouts who share a tent; `RunsLegalIff` says that this is exactly what legality needs.
- Logistics.RunsAreSafe: the number of a new tent or patrol must fit Go's int, and generated identifiers are new.
- EventRepositories.EventRepository.AddDriver: the number of seat belts is not modelled. The in-memory repository has no driver methods, so these follow the database form, and the attendance rows that they refer to are modelled as the attendees and the list of who has withdrawn.
- The senior patrol leader test on the positions text: a boolean parameter of `HandleSignUp`.
- SQL execution and transactions: the database form appears only as row statements on a keyed table. Setting a cook who is not a member is refused by the database form before anything changes, while the list form clears the flags first, as `SetCookRefines` says.
- SyncServices.SyncService.Sync: the stores must be well formed before it, that is, profiles filed under their identifiers with unique BSA IDs and users, and roles with unique names.
- Parsing of birth dates: a member carries the outcome, absent or a date. Repository failures, fetch errors and the person GUID are not part of the model.
- OtpRepositories.RegistrationHandler.Register: the clock is read once per request, and the profile lookup and the session are not modelled.
- Random code generation, hashing and constant-time comparison: whether a submitted code is right is a boolean.
- Page building, sorted listings and cost parsing: easy or floating point.
