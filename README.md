# caso-defensor: case routing, assignment rules and the defensor pages, in Dafny

This project models the logic of caso-defensor, a public defender's office
application. In it, cases ("expedientes") of a case type ("tipo de proceso")
are routed to groups of attorneys ("abogados"). A defensor can reassign an
untaken case, and the assignee can take it. The model covers:

- **The store** (`groups_service.dfy`, `cases_service.dfy`). The three tables the
  service layer writes are class fields holding row sequences:
  - `case_type_groups`, where at most one group is active per case type;
  - `group_members`;
  - `cases`.
  Each service call is a method. Each `update … eq … eq` and `delete … eq … eq`
  statement is a loop over the rows. Every method is proved against a
  specification function: `Activate`, `Associate`, `WithoutMember`, `Apply`,
  `AssociationsOf`, `MemberIds`, `AssignedTo` and `OfDefensoria`. The lifecycle
  of a case (unassigned, then assigned any number of times while not taken, then
  taken) is proved on `Apply` and `Run`.
  - A transport failure of a call is a `fails` parameter. A failed statement
    changes nothing, but an earlier statement of the same operation stays done.
  - `.select().single()` fails unless exactly one row matches. That is how
    `assignCase` and `takeCase` reject a case.
  - The clock reading `new Date().toISOString()` and the ids the database
    generates are parameters.
- **The group-membership board** (`member_board.dfy`). This is the
  drag-and-drop component that moves attorneys between the "available" column
  and the group columns. `Board` holds the two columns and calls the group
  store. The initialisation is two nested loops, proved against `InitialSlots`
  and `InitialAvailable`. A drop is decided by `PlanDrop` and its effect is
  `After` (on the board) and `StoreAfter` (on `group_members`). `HandleDragEnd`
  is proved to perform exactly that.
- **The table component** (`data_table.dfy`). Search over the chosen keys,
  `totalPages`, the slice of each page, and the previous/next buttons are pure
  functions, and the lemmas are about them. Lower-casing is a function
  parameter `lower`.
- **The defensor pages**:
  - `expedientes.dfy`: the reassignment candidates, the "Asignado a" cell,
    when "Reasignar" is offered, and the reassignment handler as a `Page` class
    over the case store.
  - `tipos_proceso.dfy`: the two-group limit, the groups offered for
    assignment, "Activar", the cache of associations per case type, and the two
    handlers as functions from page state and table to page state and table.
  - `abogados.dfy`: the status column, the availability button, the leave
    dialog, the creation payload and the groups column.

Row shapes follow `src/integrations/supabase/types.ts` and `src/types/index.ts`
(`rows.dfy`). A nullable column is an `Option`, and JavaScript truthiness of a
nullable boolean is `Truthy`.

The code has no automatic assignment, load balancing or candidate-pool
selector. Where a case is created, the submit handler only shows a message
(`src/pages/mostrador/MostradorDashboard.tsx:45-48`). This model therefore
follows the code and contains none of them.

## Model

| member | source | states |
|---|---|---|
| GroupsService.WithActive | src/services/supabase/groupsService.ts:117-132 | An `update({ is_active })` filtered by case type (and optionally group) sets the flag on exactly the selected rows; every other row is unchanged and the length is kept |
| GroupsService.Activate | src/services/supabase/groupsService.ts:115-138 | After activation, each association of the case type is active exactly when its group is the chosen one; rows of other case types are unchanged; only `is_active` changes |
| GroupsService.Associate | src/services/supabase/groupsService.ts:100-113 | Assignment appends exactly one row (case type, group, defensoria) with `is_active` unset and keeps the existing rows as a prefix |
| GroupsService.AssociationsOf | src/services/supabase/groupsService.ts:140-152 | Exactly the rows of the case type, no more rows than the table |
| GroupsService.MemberIds | src/services/supabase/groupsService.ts:86-98 | A user id is returned exactly when some membership row links it to the group |
| GroupsService.WithoutMember | src/services/supabase/groupsService.ts:73-84 | The delete keeps exactly the rows that are not the (group, user) membership |
| GroupsService.ActivateUnknownGroupLeavesNoneActive | src/services/supabase/groupsService.ts:128-137 | Activating a group with no association row for the case type still succeeds and leaves the case type with zero active associations |
| GroupsService.NoneActiveCountsZero | src/services/supabase/groupsService.ts:115-138 | With no truthy `is_active` among a case type's rows, its active count is zero |
| GroupsService.ActivateCountsPairRows | src/services/supabase/groupsService.ts:115-138 | After activation the case type has as many active associations as rows linking it to the group: one for a pair associated once |
| GroupsService.ActivateIdempotent | src/services/supabase/groupsService.ts:115-138 | Activating the same group twice gives the table that activating it once gives |
| GroupsService.ActivateSupersedes | src/services/supabase/groupsService.ts:115-138 | A later activation of another group gives the table that activating only the later group gives |
| GroupsService.AssociateKeepsActiveCount | src/services/supabase/groupsService.ts:100-113 | A new association adds no active row to any case type |
| GroupsService.WithActiveKeepsOtherCounts | src/services/supabase/groupsService.ts:117-132 | An `is_active` update scoped to one case type keeps the active count of every other case type |
| GroupsService.DeactivateLeavesNoneActive | src/services/supabase/groupsService.ts:117-124 | The deactivation statement alone leaves the case type with no active association |
| GroupsService.ActivationKeepsAtMostOne | src/services/supabase/groupsService.ts:115-138 | Every outcome of an activation (complete, only the deactivation done, or nothing done) keeps at most one active association per case type, when the chosen pair is associated at most once |
| GroupsService.GroupStore.UpdateActive | src/services/supabase/groupsService.ts:117-132 | The loop leaves `case_type_groups` equal to `WithActive` of the old table and `group_members` unchanged |
| GroupsService.GroupStore.ActivateGroupForCaseType | src/services/supabase/groupsService.ts:115-138 | Fails when either statement fails; a failed deactivation changes nothing and the activation is not attempted; a failed activation leaves every sibling deactivated; success gives `Activate` |
| GroupsService.GroupStore.AssignGroupToCaseType | src/services/supabase/groupsService.ts:100-113 | On success the table is `Associate` of the old one; on failure it is unchanged |
| GroupsService.GroupStore.AddUserToGroup | src/services/supabase/groupsService.ts:62-71 | On success one membership row is appended, with no duplicate check; on failure nothing changes |
| GroupsService.GroupStore.RemoveUserFromGroup | src/services/supabase/groupsService.ts:73-84 | On success every row of the user in the group is deleted and no other row; on failure nothing changes |
| GroupsService.GroupStore.GetGroupMembers | src/services/supabase/groupsService.ts:86-98 | Fails exactly on a transport failure; otherwise returns the user ids of exactly the rows of the group, in the order the table is held (the query has no `order`) |
| GroupsService.GroupStore.GetGroupsForCaseType | src/services/supabase/groupsService.ts:140-152 | Fails exactly on a transport failure; otherwise returns exactly the rows of the case type, in the order the table is held (the query has no `order`) |
| CasesService.Apply | src/services/supabase/casesService.ts:34-72 | A command updates the selected row when exactly one row is selected, and otherwise leaves the table unchanged |
| CasesService.AssignedTo | src/services/supabase/casesService.ts:74-86 | Exactly the cases assigned to the user, taken or not |
| CasesService.OfDefensoria | src/services/supabase/casesService.ts:5-17 | Exactly the cases of the defensoria |
| CasesService.SelectedCountUnique | src/services/supabase/casesService.ts:41-44 | With unique case ids at most one row is selected, and one is exactly when some row has the id and passes the guard |
| CasesService.NoneSelectedCountsZero | src/services/supabase/casesService.ts:41-44 | When no row passes the filters, the statement selects zero rows |
| CasesService.AssignAccepted | src/services/supabase/casesService.ts:34-44 | Reassigning a case whose `is_taken` is false sets `assigned_to_id` and `assigned_at` on that row and changes nothing else |
| CasesService.AssignRejectsUnlessNotTaken | src/services/supabase/casesService.ts:42-50 | A case whose `is_taken` is true or null matches no row, so the reassignment fails and the table is unchanged |
| CasesService.TakeAccepted | src/services/supabase/casesService.ts:54-64 | The assignee taking a case sets `is_taken` and `taken_at` on that row and changes nothing else |
| CasesService.TakeRejectsOthers | src/services/supabase/casesService.ts:62-70 | Anyone other than the assignee taking a case leaves the table unchanged |
| CasesService.RetakeRestamps | src/services/supabase/casesService.ts:56-62 | Take does not check `is_taken`: the assignee can take a taken case again, and only `taken_at` changes |
| CasesService.ApplyKeepsIds | src/services/supabase/casesService.ts:37-40 | No command changes a case id, so the primary key is kept |
| CasesService.TakenIsAbsorbing | src/services/supabase/casesService.ts:34-72 | Once taken, no sequence of assign and take commands makes a case untaken or changes its assignee or assignment time |
| CasesService.CaseStore.UpdateSingle | src/services/supabase/casesService.ts:35-50 | The table becomes `Apply` of the old one; the call answers a row exactly when one row was selected, and that row is the updated one |
| CasesService.CaseStore.CountSelected | src/services/supabase/casesService.ts:41-44 | The loop counts the selected rows (`SelectedCount`) and finds one of them when any exist |
| CasesService.CaseStore.UpdatedRows | src/services/supabase/casesService.ts:37-41 | The loop builds the table with the update applied to exactly the selected rows |
| CasesService.CaseStore.AssignCase | src/services/supabase/casesService.ts:34-52 | Succeeds exactly when there is no transport failure and a row with the id has `is_taken = false`; then it answers that row with the new assignee and time; the table is `Apply` of the old one, or unchanged on a transport failure |
| CasesService.CaseStore.TakeCase | src/services/supabase/casesService.ts:54-72 | Succeeds exactly when there is no transport failure and the row with the id is assigned to the user; then it answers that row taken at `now`; the table is `Apply` of the old one, or unchanged on a transport failure |
| CasesService.CaseStore.CreateCase | src/services/supabase/casesService.ts:19-32 | Appends the row under the store's new id, answers it, and keeps ids unique |
| CasesService.CaseStore.GetAssignedCases | src/services/supabase/casesService.ts:74-86 | Returns exactly the cases assigned to the user, in the order the table is held |
| CasesService.CaseStore.GetCases | src/services/supabase/casesService.ts:5-17 | Returns exactly the cases of the defensoria, in the order the table is held |
| MemberBoard.InitialMembers | src/components/grupos/GruposMemberAssignment.tsx:76-86 | A group shows exactly the attorneys whose id the group lists or who list the group's name |
| MemberBoard.GroupIdsOf | src/components/grupos/GruposMemberAssignment.tsx:80-85 | An attorney's collected group list is empty exactly when it belongs to no group |
| MemberBoard.InitialAvailable | src/components/grupos/GruposMemberAssignment.tsx:89-91 | "Available" holds exactly the attorneys placed in no group |
| MemberBoard.InitialSlots | src/components/grupos/GruposMemberAssignment.tsx:71-86 | One column per group, in `grupos` order, each holding that group's `InitialMembers` |
| MemberBoard.InitialPartition | src/components/grupos/GruposMemberAssignment.tsx:76-94 | After initialisation every attorney is either available or in at least one group column, never both |
| Rows.FindIn | src/components/grupos/GruposMemberAssignment.tsx:228 | `find` by id answers the first user of the list with that id, and nothing exactly when none has it |
| MemberBoard.FirstHolder | src/components/grupos/GruposMemberAssignment.tsx:116-117 | The walk over the groups stops at the first column, in board order, showing the user; if none shows it, nothing is found |
| MemberBoard.FirstHolderIs | src/components/grupos/GruposMemberAssignment.tsx:185-186 | The first column showing the user is the one the walk finds |
| MemberBoard.FindUser | src/components/grupos/GruposMemberAssignment.tsx:226-237 | `findUserById` looks in "available" first, then the groups in order, and answers nothing exactly when no column shows the id |
| MemberBoard.SlotIndex | src/components/grupos/GruposMemberAssignment.tsx:164-167 | The record lookup `groupMembers[groupId]` finds the group's column, or reports that the board has none |
| MemberBoard.WithoutId | src/components/grupos/GruposMemberAssignment.tsx:126 | The filter keeps exactly the users with another id |
| MemberBoard.PlanDrop | src/components/grupos/GruposMemberAssignment.tsx:104-221 | In both directions: no target or an unknown user gives nothing. On "available", a card some group shows is released from the first such group, and any other card stays. On a group, a card in "available" joins it. A card shown only in groups is transferred from the first group showing it, unless that is the target, where it stays |
| MemberBoard.ReleaseTouchesFirstGroupOnly | src/components/grupos/GruposMemberAssignment.tsx:110-145 | For any card some group shows, dropping it on "available" removes it from its first group only, where every other member stays, and appends it to "available"; every other column keeps its members |
| MemberBoard.JoinMovesCard | src/components/grupos/GruposMemberAssignment.tsx:154-168 | For any card in "available" dropped on a group the board shows, the card leaves "available", whose other cards stay, and is appended to that group's column; every other column is unchanged |
| MemberBoard.TransferMovesCard | src/components/grupos/GruposMemberAssignment.tsx:185-201 | For a card shown only in groups dropped on another group, the card leaves its first group, whose other members stay, and is appended to the target; "available" and every other column are unchanged |
| MemberBoard.FailureLeavesBoard | src/components/grupos/GruposMemberAssignment.tsx:134-213 | When any store call of the move fails, the board is left as it was |
| MemberBoard.TransferHalfDoneDiverges | src/components/grupos/GruposMemberAssignment.tsx:189-213 | When the removal of a transfer succeeds and the insertion fails, the board still shows the user in the source group, while the table holds no row of the user in it |
| MemberBoard.EmptyColumns | src/components/grupos/GruposMemberAssignment.tsx:71-73 | The first loop gives one empty column per group, in `grupos` order |
| MemberBoard.InitialSlotsSnoc | src/components/grupos/GruposMemberAssignment.tsx:76-86 | Placing one more attorney appends it to exactly the columns of the groups it belongs to |
| MemberBoard.PlaceAttorney | src/components/grupos/GruposMemberAssignment.tsx:80-85 | The inner loop appends the attorney to each column it belongs to, and collects those group ids in order |
| MemberBoard.Unplaced | src/components/grupos/GruposMemberAssignment.tsx:89-91 | The filter over the collected group lists gives exactly `InitialAvailable` |
| MemberBoard.Board.Initialize | src/components/grupos/GruposMemberAssignment.tsx:65-95 | The nested loops leave the board at `InitialSlots` and `InitialAvailable`, with column ids distinct |
| MemberBoard.Board.FindUserById | src/components/grupos/GruposMemberAssignment.tsx:226-237 | The loop answers `FindUser` of the board |
| MemberBoard.Board.HandleDragEnd | src/components/grupos/GruposMemberAssignment.tsx:101-224 | The board becomes `After` of the move `PlanDrop` decides, unchanged on `Ignore`; `group_members` becomes `StoreAfter` of the same move; `case_type_groups` is untouched |
| MemberBoard.Board.DropOnAvailable | src/components/grupos/GruposMemberAssignment.tsx:110-146 | The "available" branch performs the planned release, or nothing when no group shows the user |
| MemberBoard.Board.ReleaseFrom | src/components/grupos/GruposMemberAssignment.tsx:118-143 | Removes the membership and, only when that succeeds, moves the card to "available" |
| MemberBoard.Board.JoinGroup | src/components/grupos/GruposMemberAssignment.tsx:149-182 | The join branch inserts the membership and, only on success, moves the card into the group column |
| MemberBoard.Board.TransferCard | src/components/grupos/GruposMemberAssignment.tsx:183-219 | The transfer branch finds the first group showing the card; it does nothing when that is the target, and otherwise performs the planned transfer |
| MemberBoard.Board.MoveBetween | src/components/grupos/GruposMemberAssignment.tsx:189-216 | Removal, then insertion, stopping at the first failure; the board moves the card only when both succeed |
| DataTable.InitialView | src/components/ui/DataTable.tsx:38-39 | The table starts with an empty query on page 1 |
| DataTable.ContainsIff | src/components/ui/DataTable.tsx:47 | `includes` holds exactly when the query occurs at some position of the string |
| DataTable.AnyKeyHits | src/components/ui/DataTable.tsx:45-48 | `some` over the keys holds exactly when one key's value is truthy and contains the query case-insensitively |
| DataTable.Search | src/components/ui/DataTable.tsx:44-49 | The filter keeps exactly the items some key hits |
| DataTable.SearchAppend | src/components/ui/DataTable.tsx:44-49 | Filtering a concatenation filters the parts in order, so the relative order of items is kept |
| DataTable.SearchKeepsHits | src/components/ui/DataTable.tsx:44-49 | When every item hits, the filter returns the list unchanged |
| DataTable.Filtered | src/components/ui/DataTable.tsx:42-50 | Search off, an empty query or no `searchKeys`: the data unchanged; otherwise exactly the items some search key hits |
| DataTable.EmptyKeysHideEverything | src/components/ui/DataTable.tsx:43-49 | An empty `searchKeys` array with a non-empty query shows no rows |
| DataTable.SearchWithoutKeys | src/components/ui/DataTable.tsx:44-49 | Searching with no keys keeps nothing |
| DataTable.CeilDiv | src/components/ui/DataTable.tsx:53 | `Math.ceil(n / size)`: the least count of pages of `size` that holds `n` rows |
| DataTable.TotalPages | src/components/ui/DataTable.tsx:53 | With pagination, the least page count holding every filtered row; without it, 1 |
| DataTable.SliceBound | src/components/ui/DataTable.tsx:55 | A `slice` bound lands inside the list, and an in-range bound is kept |
| DataTable.SliceIsWindow | src/components/ui/DataTable.tsx:55 | A slice with non-negative bounds is the window cut to the list |
| DataTable.PageIsWindow | src/components/ui/DataTable.tsx:54-56 | Page p is rows `[(p-1)*size, p*size)` cut to the list, and holds at most `size` rows |
| DataTable.PagesThroughIsPrefix | src/components/ui/DataTable.tsx:54-56 | Pages 1..k concatenated are the first `k*size` filtered rows |
| DataTable.PagesCoverFiltered | src/components/ui/DataTable.tsx:53-56 | Pages 1..totalPages concatenated are exactly the filtered list |
| DataTable.PagePastEndIsEmpty | src/components/ui/DataTable.tsx:53-56 | A page beyond `totalPages` shows no rows |
| DataTable.PagerShownIff | src/components/ui/DataTable.tsx:117 | The pager shows exactly when pagination is on and the filtered rows do not fit on one page |
| DataTable.StepMovesOne | src/components/ui/DataTable.tsx:119-138 | Within 1..totalPages, previous and next stay in range; a disabled button would not move and an enabled one moves exactly one page |
| DataTable.NavigateStaysInRange | src/components/ui/DataTable.tsx:122-135 | No sequence of presses leaves 1..totalPages |
| DataTable.StepBounds | src/components/ui/DataTable.tsx:119-138 | From any page, also one left past the end when the list shrank: previous never goes below 1 and next never past the last page; from past the end, next is enabled and jumps back to the last page |
| DataTable.NavigateReentersRange | src/components/ui/DataTable.tsx:119-138 | From any page at least 1, presses never go below page 1, and once next has been pressed the page is within 1..totalPages |
| DataTable.OnSearch | src/components/ui/DataTable.tsx:67-70 | Typing sets the query and resets the page to 1 |
| DataTable.SearchShowsFirstPage | src/components/ui/DataTable.tsx:54-70 | After typing, the table shows the first `pageSize` rows of the new filtered list |
| Expedientes.Candidates | src/pages/defensor/ExpedientesPage.tsx:33 | The candidates are exactly the fetched attorneys that are active and not on leave |
| Expedientes.CandidatesAppend | src/pages/defensor/ExpedientesPage.tsx:33 | The candidate filter distributes over concatenation, so it keeps the fetch order |
| Expedientes.FindById | src/pages/defensor/ExpedientesPage.tsx:94 | `find` (the lookup `FindIn`) answers the first attorney whose id equals the case's `assigned_to_id`, and nothing exactly when none has it; a null id matches nobody |
| Expedientes.AssigneeLabel | src/pages/defensor/ExpedientesPage.tsx:93-96 | The cell shows "Sin asignar" when no candidate holds the case, and otherwise the name of a candidate that does |
| Expedientes.HeldByIneligibleShowsUnassigned | src/pages/defensor/ExpedientesPage.tsx:93-96 | A case held by an inactive or on-leave attorney shows "Sin asignar" |
| Expedientes.HeldByEligibleShowsName | src/pages/defensor/ExpedientesPage.tsx:93-96 | A case held by an eligible attorney shows that attorney's name |
| Expedientes.OfferedNotTakenIsReassigned | src/pages/defensor/ExpedientesPage.tsx:122-130 | On a row whose `is_taken` is false, "Reasignar" is offered and the store's reassignment updates that row only |
| Expedientes.OfferedNullIsRejected | src/pages/defensor/ExpedientesPage.tsx:122-130 | On a row whose `is_taken` is null, "Reasignar" is offered but the store's update matches no row and changes nothing |
| Expedientes.Page.Load | src/pages/defensor/ExpedientesPage.tsx:28-33 | With a truthy defensoria (present and not the empty string), the page holds that defensoria's cases and the candidates of the fetched attorneys; without one it keeps its lists |
| Expedientes.Page.OpenReassign | src/pages/defensor/ExpedientesPage.tsx:50-53 | "Reasignar" remembers the row and opens the dialog |
| Expedientes.Page.ChooseAbogado | src/pages/defensor/ExpedientesPage.tsx:192-193 | The select records the chosen attorney and changes nothing else |
| Expedientes.Page.HandleReasignar | src/pages/defensor/ExpedientesPage.tsx:55-80 | With no case or no attorney chosen, nothing happens. Otherwise the store applies the reassignment unless the call fails, and it succeeds exactly when the call does not fail and the case is not taken. On success the list is refetched (with a truthy defensoria) and the dialog closes; when the reassignment or the refetch fails the list and the dialog stay as they were |
| TiposProceso.AssignableGroups | src/pages/defensor/TiposProcesoPage.tsx:423-424 | The select offers exactly the groups not already associated with the case type |
| TiposProceso.OfferedOrAssociated | src/pages/defensor/TiposProcesoPage.tsx:423-424 | A listed group is offered exactly when it is not associated |
| TiposProceso.AssignGuard | src/pages/defensor/TiposProcesoPage.tsx:168 | The handler calls the store exactly when a case type, a group and the defensoria are all truthy (a defensoria `""` blocks it), with exactly those three values |
| TiposProceso.AssignGuardBlocks | src/pages/defensor/TiposProcesoPage.tsx:168 | With the guard failing, page and table stay as they are |
| TiposProceso.Refresh | src/pages/defensor/TiposProcesoPage.tsx:177-180 | The spread update replaces the case type's entry and keeps every other entry |
| TiposProceso.BuildCache | src/pages/defensor/TiposProcesoPage.tsx:44-55 | One entry per case type: the fetched associations, or empty when that fetch failed |
| TiposProceso.NoEntryOrFailedFetchShowsNoGroups | src/pages/defensor/TiposProcesoPage.tsx:226-228 | A failed fetch and a missing entry both show the icon without groups |
| TiposProceso.AssociationsOfAssociate | src/pages/defensor/TiposProcesoPage.tsx:171-174 | After an assignment the refetched list of the case type is the old list plus the new association |
| TiposProceso.AssignRefreshesSelectedOnly | src/pages/defensor/TiposProcesoPage.tsx:167-195 | A successful assignment appends one association, which shows "Activar"; the dialog list matches the store again; the select is cleared; only the selected case type's cache entry changes |
| TiposProceso.AssignKeepsLimit | src/pages/defensor/TiposProcesoPage.tsx:412 | From a dialog in sync with the store, assigning through the control, which shows below two groups, leaves the case type with at most two associations |
| TiposProceso.AssociateAddsPairRow | src/services/supabase/groupsService.ts:100-113 | Each insert of a pair adds one row linking the case type and the group, with no duplicate check |
| TiposProceso.StaleDialogBreaksLimit | src/pages/defensor/TiposProcesoPage.tsx:167-195 | After a successful insert and a failed refetch the dialog is unchanged and out of sync, the control still shows, and a second press adds the pair again: two more associations, the pair twice, and two active rows once it is activated; from one association this passes the two-group limit |
| TiposProceso.AfterAssignCorrected | src/pages/defensor/TiposProcesoPage.tsx:167-195 | The handler with the failed-refetch path corrected writes the same table as the handler as written, and behaves as written on every other path |
| TiposProceso.CorrectedKeepsSync | src/pages/defensor/TiposProcesoPage.tsx:167-195 | With the corrected handler the dialog list stays what the store returns on every path |
| TiposProceso.CorrectedKeepsLimit | src/pages/defensor/TiposProcesoPage.tsx:412-437 | With the corrected handler, no run of presses, with any group chosen and any store call failing, takes a case type past two groups |
| TiposProceso.OfferedGroupAssociatedOnce | src/pages/defensor/TiposProcesoPage.tsx:423-424 | Assigning an offered group leaves exactly one row linking it to the case type, so a later activation leaves exactly one active association |
| TiposProceso.NoPairCountsZero | src/pages/defensor/TiposProcesoPage.tsx:423-424 | A group not in the case type's list has no row linking the two |
| TiposProceso.ActivateShowsActivarOnSiblings | src/pages/defensor/TiposProcesoPage.tsx:197-224 | After a successful activation the refreshed list shows "Activar" on exactly the other groups, and only that case type's cache entry changes |
| TiposProceso.ActivateFailureKeepsDialog | src/pages/defensor/TiposProcesoPage.tsx:197-224 | A failed activation or refetch leaves the dialog as it was, though a completed deactivation stays in the table |
| Abogados.DisponibleIffEligible | src/pages/defensor/AbogadosPage.tsx:172-173 | "Inactivo" exactly when inactive, whatever the leave flag; "Ausente" exactly when active and on leave; "Disponible" exactly when active and not on leave, which is exactly the reassignment candidate rule |
| Abogados.ActionFor | src/pages/defensor/AbogadosPage.tsx:182-188 | Actions show only for active attorneys: "Marcar disponible" exactly for "Ausente", "Marcar ausencia" exactly for "Disponible" |
| Abogados.LeaveCall | src/pages/defensor/AbogadosPage.tsx:106-114 | With an attorney selected, submitting sends a leave for that attorney, with no end date exactly when the field is blank; without one nothing is sent |
| Abogados.PressFlipsStatus | src/pages/defensor/AbogadosPage.tsx:137-139 | The button sends nothing for an inactive attorney; it turns "Ausente" into "Disponible" with no end date, and "Disponible" into "Ausente" with the chosen date |
| Abogados.LeaveThenReturn | src/pages/defensor/AbogadosPage.tsx:106-158 | A leave followed by a return brings an available attorney back to available with no end date |
| Abogados.NewAbogado | src/pages/defensor/AbogadosPage.tsx:73-85 | Nothing is sent exactly when the current defensoria is missing or the empty string; otherwise the payload is the form's name and email, role `abogado`, that defensoria, active |
| Abogados.NewAbogadoIsAvailable | src/pages/defensor/AbogadosPage.tsx:79-83 | A newly created attorney shows "Disponible", is a reassignment candidate and is offered "Marcar ausencia" |
| Abogados.JoinEmptyIff | src/pages/defensor/AbogadosPage.tsx:166 | With a non-empty separator, a join is empty exactly for no parts or a single empty part |
| Abogados.GroupsLabelCases | src/pages/defensor/AbogadosPage.tsx:166 | "Sin grupos" for a missing or empty group list (or one empty name); otherwise the names joined by ", " |

## Left out

- Automatic assignment, load balancing and candidate-pool selection: the code has none, so nothing models them.
- Supabase transport, error objects and timing are left out. A call's failure is a boolean parameter. Each statement is atomic. The race between the two updates of an activation, and between an assign and a take, is concurrency, and out of scope.
- The `Promise.all` fan-out that builds the case-type cache is left out. `BuildCache` takes the fetch answers as a function and does not model ordering.
- React rendering, dialogs' visual state, toasts, loading flags, hover state and the drag sensors are left out. So are routing, authentication and the demo dashboards, which hold no rules.
- `usersService.ts` returns fixed users, and its `updateUserAvailability` stores nothing. The attorneys page is modelled by the calls it makes (`AvailabilityCall`) and by the record those calls describe (`Updated`). The stub's no-op, and the refetch after each call, are not modelled.
- The group and case-type CRUD in `groupsService.ts` (`getGroups`, `createGroup`, `updateGroup`, `deleteGroup`) and `caseTypesService.ts` are plain pass-through, and are left out.
- The joined columns `case_types(name)` and `groups(name)` that the selects add are not modelled. The rows keep only their own columns.
- `GroupsService.GroupStore.GetGroupsForCaseType`: the query selects only `group_id` and `is_active` (and the joined group name), but the model returns whole rows, with `id`, `case_type_id` and `defensoria` too. The page reads only the selected columns.
- `CasesService.CaseStore.CreateCase`: the store-chosen id is required to be new, and a transport failure is not modelled.
- `CasesService.CaseStore.GetCases` and `GetAssignedCases`: a transport failure of the store call itself is not modelled. `Expedientes.Page.HandleReasignar` models a failing refetch by its `fetchFails` parameter instead.
- `CasesService.CaseStore.GetCases`: none of the four selects has an `order` clause, so the database may return rows in any order. The model returns them in the order the table is held, and so do `CasesService.CaseStore.GetAssignedCases`, `GroupsService.GroupStore.GetGroupMembers` and `GroupsService.GroupStore.GetGroupsForCaseType`.
- `TiposProceso.InSync` and `TiposProceso.AssignRefreshesSelectedOnly`: "the dialog list matches the store" and "the old list plus the new association" rest on that same assumption about row order.
- `GroupsService.Associate`: the inserted row carries no `is_active`, and no column default is visible, so the model takes the new row's `is_active` to be null. A database default of `true` would make a new association active at once.
- `Expedientes.Page.Load` filters the attorneys it is given and does not model the fetch of attorneys by defensoria and role.
- `DataTable.Filtered`: item values are text, booleans, null or missing. Numbers and objects are not modelled. A dotted key such as `case_types.name` is looked up as one key, as the code does.
- `DataTable.Filtered`: `toLowerCase` is the function parameter `lower`, with no Unicode behaviour.
- `DataTable.TotalPages` requires a positive `pageSize`, because a zero page size gives `Infinity` or `NaN` in the code.
- `Abogados.LeaveCall`: the end date is kept as the date field's text, not converted with `new Date`.
- `MemberBoard.Board.HandleDragEnd` requires a drop on a group to name a group the board shows. A drop on an unknown id would insert the membership and then fail on the missing record entry; that path is not modelled.
- `MemberBoard.Board.HandleDragEnd` walks the group columns in `grupos` order, which is the record's insertion order. JavaScript visits integer-like keys first; that reordering is not modelled.
- `MemberBoard.Board.Initialize` requires distinct attorney ids and distinct group ids, as primary keys are. With duplicates, the code overwrites an attorney's collected group list.
- `MemberBoard.Board.HandleDragEnd` leaves out the `loading` flag, `activeId` and drag-start handling, and the no-op save button.

## Findings

| source | as written | input that shows it | evidently intended | confidence | as-written member | corrected member |
|---|---|---|---|---|---|---|
| src/pages/defensor/TiposProcesoPage.tsx:170-195 | When the insert succeeds and the refetch throws, the catch leaves `gruposProceso` and `selectedGrupo` as they were, so the control (shown while `gruposProceso.length < 2`, line 412) still offers the same group and the button stays enabled | A case type with one association; select a second group; press with the insert succeeding and the refetch failing; press again with both succeeding: three associations, the second group associated twice, and two active rows once it is activated | The dialog never shows fewer associations than the store holds, so the two-group limit holds whatever fails: after a successful insert the list records the new association and the select is cleared even when the refetch fails | medium, not executed | TiposProceso.StaleDialogBreaksLimit | TiposProceso.CorrectedKeepsLimit |
