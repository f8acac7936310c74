# Hospital capacity matrix — Dafny model

The dashboard shows one row per hospital and one column per capacity type
(emergency room, intensive care, …) or service group (cardiology, …). Every
cell holds a status (free, overloaded, limited, incapacitated, not
available, future overload, inactive), an availability flag, a comment, who
updated it, a "skip the next automatic free report" flag, planned overload
windows, and a list of patient pre-notifications (PVA, *Patientenvoranmeldung*)
ordered by triage category and arrival time. A control centre changes cell
statuses, records pre-notifications and administers the three registries.

The model covers:

- **`Matrix`** (`matrix.dfy`, from `App.js`):
  - the initial registries and the deterministic rules of the sample matrix generator;
  - the derived cell status, colour and label;
  - the statistics, with the two counting loops as methods;
  - the per-category counts of a cell's PVA list and the triage ordering of the sample lists;
  - the update rules for a status change, a PVA save and an administration save;
  - the class `MatrixState`, which holds the registries, the cell map, the PVA map, the selected cell and the dialog flags, and updates them in place.
- **`StatusDialog`** (`status_dialog.dfy`, the status dialog in `App.js`): the form, which refuses to submit while "ordered by" is blank after trimming.
- **`AdminDialog`** (`admin_dialog.dfy`, from `AdminDialog.js`):
  - the three entity forms and the "editing" state;
  - save as add or edit, edit, reset and delete-after-confirmation;
  - the automatic free-report times.
- **`PvaDialog`** (`pva_dialog.dfy`, from `PVADialog.js`):
  - the triage category table and its fallbacks;
  - the notification form with its required fields, edit, cancel and reset;
  - the triage select, which writes both category fields;
  - the sorted list view.
- Supporting modules:
  - `Seqs` models `Array.prototype.filter` and filtered counts.
  - `Fold` sums a function over a finite key set.
  - `Text` models `String.prototype.trim` and the blank test.
  - `Domain` holds the entities.
  - `Registry` holds add, edit-by-id and delete-by-id, shared by the registries and the PVA lists.
  - `Triage` holds the comparator and `Array.prototype.sort` as a stable insertion sort.

Clock values and fresh ids (`Date.now()`, `new Date()`) are integer parameters.
The random draws of the sample generator are a `Dice` parameter per cell.
`window.confirm` is a boolean parameter.
A cell key `${hospitalId}-${itemId}` is the pair `CellKey(hospitalId, itemId)`.
The string `action` and `type` arguments are closed datatypes: `PvaAction`, whose extra value `Unknown` stands for any other string, and `AdminSave`.

## Model

| member | source | states |
|---|---|---|
| Matrix.InitialIdsArePositions | App.js:93-130 | every initial hospital and every initial column (capacity types, then service groups) carries its position plus one as its id, so no two share an id and capacity and service columns never share a cell key |
| Matrix.RandomDrawYieldsThreeStatuses | App.js:161-211 | the generator yields incapacitated only at (1,1), future overload only at (1,3) and (7,5), and not available only at (4,4), (6,4) and (5,6); outside the demonstration cells a draw below 0.15 is overloaded, so the later random branches are unreachable |
| Matrix.InitialCell | App.js:164-227 | a cell of an inactive hospital is inactive and available; a cell is available exactly when its status is not not_available; it has planned overload windows exactly when its status is future overload |
| Matrix.InitMatrix | App.js:156-213 | the generated map has exactly one key per hospital × item pair, and each cell is the generated cell of a hospital and item with those ids |
| Matrix.InitRow | App.js:157-213 | one pass over the items adds the keys of one hospital's cells and keeps every cell generated |
| Matrix.GeneratedCellOfPair | App.js:156-213 | when no other hospital and no other item share their ids, the key of a hospital and an item is present and holds exactly their generated cell |
| Matrix.InitialMatrixCells | App.js:133-213 | over the initial registries every hospital × column key holds the generated cell of that very hospital and column |
| Matrix.GeneratedInactiveHospital | App.js:165-167 | in the generated matrix, every cell of an inactive hospital whose id is unique is present, available and inactive |
| Matrix.CellColor | App.js:504-515 | black-and-white mode gives white exactly for free and black otherwise, even for an inactive hospital; otherwise the stripe appears exactly for an inactive hospital or status, and any other status gets its palette colour |
| Matrix.PaletteDistinguishesStatuses | App.js:82-90 | every status other than inactive has its own colour |
| Matrix.LabelsCollideOnlyOnAvailability | App.js:428-439 | two statuses share a label exactly when they are equal or are free and not_available ("Verfügbar") |
| Matrix.CellStatus | App.js:497-502 | a missing or unavailable cell shows not_available; any other cell shows its stored status |
| Matrix.InactiveHospitalIsStriped | App.js:504-515 | a cell of an inactive hospital is striped outside black-and-white mode, whatever it stores |
| Matrix.BlackWhiteShowsOnlyFree | App.js:497-515 | in black-and-white mode a cell is white exactly when it is present, available and free |
| Matrix.OverloadedCellExample | App.js:497-515 | an available overloaded cell (1,2) is red (#f44336) and labelled "Ausgelastet" for an active hospital and striped for an inactive one |
| Matrix.BucketsWithinTotal | App.js:464-486 | free + overloaded + limited + incapacitated never exceeds total |
| Matrix.CountedIffCellStatus | App.js:466-480 | a cell is counted in the free, overloaded, limited or incapacitated bucket exactly when its shown status is that status |
| Matrix.CountCells | App.js:464-486 | `total` is the number of available cells and each of the four counters the number of available cells with its status, whatever order the keys are visited in; `totalPva` stays 0 |
| Matrix.SumListLengths | App.js:488-490 | the loop's sum is the order-independent sum of the list lengths over all keys of the PVA map |
| Matrix.MatrixState.GetStatistics | App.js:454-493 | the result is the statistics of the current cell map and PVA map |
| Fold.SumOverRemove | App.js:488-490 | the sum over a key set is one key's value plus the sum over the others, whatever key is visited first |
| Matrix.SampleSortOrdersAndPermutes | App.js:278-283 | the sorted sample list is a permutation of the generated one, ordered by category and then arrival, with ties in generation order |
| Matrix.CategoryCountsCoverList | App.js:678-680 | when every category is 1, 2 or 3, the three per-category counts add up to the list length |
| Matrix.CategoryCountsSurviveSort | App.js:678-680 | sorting does not change any per-category count |
| Matrix.WithStatus | App.js:333-343 | only the selected key changes; its status, comment, timestamp, author "Leitstelle" and skip flag are overwritten and its availability, overload windows and PVA count are kept |
| Matrix.StatusUpdateShows | App.js:333-343 | after a status update the cell shows the new status if it was available and not_available otherwise |
| Matrix.PvaListAfter | App.js:356-374 | add appends at the end; edit keeps length and order and replaces exactly the entries with the id; delete is the registry delete by id: it keeps exactly the entries with other ids, in their order and with their multiplicity (the i-th survivor is the entry at the i-th position whose id differs), and shortens the list by the number of entries with the id; an unknown action keeps the list |
| Matrix.PvaDataAfter | App.js:356-374 | an unknown action returns the map unchanged; otherwise only the selected key's list changes, and no other key is added, removed or changed |
| Matrix.PvaCountMatchesList | App.js:377-391 | the stored count, computed from the list before the save, equals the new list's length exactly unless the action is a delete on a non-empty list whose id does not occur exactly once |
| Matrix.PvaCountDriftsOnAbsentDelete | App.js:366-391 | deleting an absent id from a non-empty list keeps the list but lowers the stored count by one |
| Matrix.WithPvaCount | App.js:384-390 | only the selected key changes, and only in its PVA count |
| Matrix.MatrixState.constructor | App.js:133-150 | the registries start as the initial ones, with no cells, no lists, no selection and every dialog closed |
| Matrix.MatrixState.HandleCellClick | App.js:306-317 | the cell is selected; the PVA dialog opens when the cell has notifications, and the status dialog opens otherwise |
| Matrix.MatrixState.HandlePvaClick | App.js:319-322 | the cell is selected and the PVA dialog opens |
| Matrix.MatrixState.HandleStatusUpdate | App.js:328-351 | the cell map becomes the status update of the selected cell; the update time is set and the status dialog closes |
| Matrix.MatrixState.HandlePvaSave | App.js:353-392 | the PVA map and the cell map become the list update and the count update of the selected cell |
| Matrix.MatrixState.HandleAdminSave | App.js:394-421 | only the registry named by the type changes, by the action's add, edit or delete; a system save changes nothing |
| Registry.RemoveByIdRemovesExactly | App.js:400-401 | a delete keeps exactly the entries with other ids, in their order (the i-th survivor is the entry at the i-th position whose id differs) and with their multiplicity (the removed part is exactly the entries with the id), and shortens the list by the number of entries with the id |
| Registry.DeleteAbsentIsNoOp | App.js:400-401 | deleting an id that does not occur leaves the registry unchanged |
| Registry.EditAbsentIsNoOp | App.js:398-399 | editing an entry whose id does not occur leaves the registry unchanged |
| Registry.DeleteIsIdempotent | App.js:400-401 | a second delete of the same id is a no-op |
| Registry.AddThenEdit | App.js:396-399 | editing a just-added entry replaces it in place at the end of the list |
| Registry.AddThenDelete | App.js:396-401 | deleting a just-added entry whose id was new restores the registry |
| Registry.EditKeepsIdCounts | App.js:398-399 | an edit keeps the number of entries with every id |
| Triage.Compare | App.js:278-283 | the comparator is negative exactly when the category is lower, or equal with an earlier arrival, and zero exactly on equal keys |
| Triage.CompareTransitive | App.js:278-283 | the comparator's order is transitive |
| Triage.SortPermutes | App.js:278-283 | sorting is a permutation of its input |
| Triage.SortSorts | App.js:278-283 | the sorted list is ordered by the comparator |
| Triage.SortIsStable | App.js:278-283 | entries with equal keys keep their relative order |
| Triage.SortIsTheStableSort | PVADialog.js:336-341 | any ordered list with the same equal-key runs as the input is the sort's result |
| Triage.SortFixesSorted | PVADialog.js:336-341 | an already ordered list is returned unchanged |
| Text.BlankIffAllWhitespace | AdminDialog.js:112 | a name is blank after trimming exactly when it consists of whitespace only |
| Text.TrimStart | AdminDialog.js:112 | leading trimming drops a whitespace-only prefix and keeps the rest, which does not start with whitespace |
| Text.TrimEnd | AdminDialog.js:112 | trailing trimming drops a whitespace-only suffix and keeps the rest, which does not end with whitespace |
| Text.TrimmedEndsAreNotWhitespace | AdminDialog.js:112 | a non-empty trimmed name neither starts nor ends with whitespace |
| Seqs.FilterMembership | App.js:369 | an entry survives a filter exactly when it is in the list and passes the test |
| Seqs.Positions | App.js:369 | the positions of the entries passing a test are listed in ascending order, each once, and no other position is listed |
| Seqs.FilterKeepsOrder | App.js:369 | the i-th survivor of a filter is the entry at the i-th position that passes the test, so order and multiplicity are kept |
| Seqs.FilterSplitsMultiset | App.js:369 | the entries passing a test and those failing it together make up the list, with multiplicity |
| StatusDialog.StatusForm.constructor | App.js:1176-1179 | the form starts free, with empty comment and "ordered by" and the flag off |
| StatusDialog.StatusForm.SyncFromCell | App.js:1181-1186 | a present cell loads its status and comment into the form |
| StatusDialog.StatusForm.Submit | App.js:1188-1197 | nothing is emitted and nothing changes while "ordered by" is whitespace only; otherwise status, comment and flag are emitted and "ordered by", comment and flag are cleared |
| AdminDialog.FormRoundTrips | AdminDialog.js:156-169 | loading an entry into its form and saving under its own id gives the entry back, and a saved form reloads unchanged |
| AdminDialog.DeleteRequest | AdminDialog.js:171-175 | a delete of the id for the named registry is emitted exactly when confirmed |
| AdminDialog.UnchangedEditIsNoOp | AdminDialog.js:117-122 | saving an unchanged edit leaves a registry that holds the entry under its id unchanged |
| AdminDialog.EditSaveRoundTrip | AdminDialog.js:116-122 | editing a hospital and saving without changes leaves the registry unchanged |
| AdminDialog.AdminDialogState.constructor | AdminDialog.js:39-78 | the forms start empty (hospital active, categories "capacity" and "service"), nothing is being edited, and the configuration has the default three times |
| AdminDialog.AdminDialogState.ResetHospitalForm | AdminDialog.js:80-91 | the hospital form is empty and active, and no hospital is being edited |
| AdminDialog.AdminDialogState.ResetCapacityForm | AdminDialog.js:93-100 | the capacity form is empty with category "capacity", and no capacity is being edited |
| AdminDialog.AdminDialogState.ResetServiceForm | AdminDialog.js:102-109 | the service form is empty with category "service", and no service group is being edited |
| AdminDialog.AdminDialogState.SaveHospital | AdminDialog.js:111-124 | a blank name emits nothing and changes nothing; otherwise an edit under the edited id or an add under the fresh id is emitted, and the form and editing state reset |
| AdminDialog.AdminDialogState.SaveCapacity | AdminDialog.js:126-139 | the same rules for capacity types |
| AdminDialog.AdminDialogState.SaveService | AdminDialog.js:141-154 | the same rules for service groups |
| AdminDialog.AdminDialogState.EditHospital | AdminDialog.js:156-159 | the hospital is remembered and its fields are loaded into the form |
| AdminDialog.AdminDialogState.EditCapacity | AdminDialog.js:161-164 | the capacity type is remembered and its fields are loaded into the form |
| AdminDialog.AdminDialogState.EditService | AdminDialog.js:166-169 | the service group is remembered and its fields are loaded into the form |
| AdminDialog.AdminDialogState.SetAutoFreeTime | AdminDialog.js:466-476 | only the time at the index changes, and there are still three |
| AdminDialog.AdminDialogState.SaveSystemConfig | AdminDialog.js:552 | the current configuration is emitted as a system save |
| PvaDialog.TriageCategoryOf | PVADialog.js:29-48 | the table defines exactly the ids 1, 2 and 3 |
| PvaDialog.TriagePresentation | PVADialog.js:29-48 | the three categories have distinct colours and labels, and every other id shows '#666' and "Unbekannt" |
| PvaDialog.BlankPva | PVADialog.js:80-108 | the reset form has the fresh id and time, category 1, priority "normal", status "angemeldet", the dialog's names and otherwise empty fields |
| PvaDialog.SortedPvasIsOrderedPermutation | PVADialog.js:336-341 | the shown list is a permutation of the cell's list, ordered by category and then arrival, with ties in stored order |
| PvaDialog.CriticalListedFirst | PVADialog.js:336-341 | a category-1 notification is listed before a category-2 one that precedes it |
| PvaDialog.PvaDialogState.constructor | PVADialog.js:51-78 | the dialog starts on the first tab with a blank form carrying the names of the props at mount (empty when a prop is absent) and nothing being edited |
| PvaDialog.PvaDialogState.ResetForm | PVADialog.js:80-108 | the form is blank, carries the names of the props current at the reset, and nothing is being edited |
| PvaDialog.PvaDialogState.HandleSave | PVADialog.js:110-118 | nothing is emitted and nothing changes unless name and symptoms are non-empty (no trimming); otherwise the form is emitted and reset with the current props' names |
| PvaDialog.PvaDialogState.HandleEdit | PVADialog.js:120-124 | the notification's id is remembered, the form becomes the notification, and the first tab is shown |
| PvaDialog.PvaDialogState.HandleCancel | PVADialog.js:126-128 | the same new state as a reset |
| PvaDialog.PvaDialogState.SelectTriageCategory | PVADialog.js:196-201 | both the triage category and the medical category become the chosen value, and nothing else changes |

## Left out

- Rendering, styling, icons, tooltips, tabs, the legend dialog and every other JSX element. The model covers the state these present, not the markup.
- The random parts of the sample generator are left out: the PVA lists it creates and their contents, such as symptom and vital texts. Only its deterministic cell rules and the sort of its lists are modelled.
- The generator re-runs whenever a registry changes, which replaces all cells and lists. This is a React effect, and `InitMatrix` models one run of it.
- The auto-refresh timer, `window.location.reload`, `alert`, the snackbar and the Excel export stub. They are side effects with no state the core keeps.
- The wiring between the matrix and the PVA dialog is not modelled. The matrix passes `onSave`, `hospitalId` and `departmentId`, but the dialog reads `onSavePva`, `onDeletePva`, `hospital` and `capacity`. The dialog also emits a save without an action and a delete as a bare id. Each side is modelled by its own contract.
- The setters of the individual form text fields (name, address, vitals, …) and of the other configuration fields. Each is a plain field assignment. `refreshInterval` is stored as `parseInt` returns it, with no clamp, which the model does not restrict either.
- The `|| status` and `|| '#9e9e9e'` fallbacks of the label and colour lookups cannot be reached: every stored status is one of the seven constants, which `StatusKind` encodes.
- Payloads outside the typed encoding are not modelled: an admin save of an unknown type, or one whose action string is neither add, edit nor delete, changes nothing in the source.
- Ids are integers; the source's fractional `Date.now() + Math.random() * 10000` sample ids are not.
- Matrix.SampleOrderKey: the sample notifications order on an ISO minute string in `logisticsInfo.arrivalTime`; the model takes that instant as an integer, so sub-minute differences and date parsing are not modelled.
- PvaDialog.ListOrderKey: the list orders on the top-level `arrivalTime`, which the generated samples lack (their comparison in the source yields NaN); the model orders every notification by its integer `arrivalTime`.
- The cells' timestamps are integers; `Date` objects and their formatting are not modelled.
