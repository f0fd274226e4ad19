# Radar RAID log — verified model of the risk board

Radar is a single-page risk board. Users log risks with a title,
description, probability and impact. They drag the risks between four
status lanes: New, Monitoring, Mitigating and Closed. The only state is an
in-memory, ordered list of risk records owned by the `App` component, plus
the open/closed flag and the draft of the "Log New Risk" modal.

This project models that state and the logic around it in Dafny:

- `form.dfy` (module `AddRiskForm`): the modal's draft (`formData`), its
  defaults, the one-field edits its inputs make, and the required title.
- `risk_store.dfy` (module `RiskStore`): the risk record, the column table,
  the initial records, and the pure list transforms the handlers compute.
  These are append-from-draft (`handleAddRisk`), the status rewrite of
  `handleDrop` (a `map`), and `Array.filter` (`Select`), which both delete
  and the lanes use.
- `board_view.dfy` (module `BoardView`): the lane views (`filter` on status)
  and their counts, and the proof that the four lanes partition the list.
- `colours.dfy` (module `Colours`): the `Badge` level-to-colour lookup with
  its grey fallback, and the `Card` accent for high-probability risks.
- `app.dfy` (module `App`): class `RiskBoard`, which holds the list, the
  modal flag and the draft. Its methods replace them the way the handlers
  do, using the functions above.

Statuses and levels are strings, as in the source. So "every status is one
of the four column statuses" is a real invariant (`RiskBoard.Valid`), kept by
add, drop and delete. Ids are integers. The id of a new record is a
parameter, because the source takes it from the clock. The drop payload is
an `Option<int>`: `None` stands for the `NaN` that `parseInt` returns on a
payload that is not a number. `NaN` equals no id, so no record matches.

Facts about the code that shape the model:

- Delete is a `filter` (line 214) and drop a `map` (lines 199-201), so both
  act on every record with the given id. Ids from `Date.now()` need not be
  unique, so the model states their results over all matching records.
- Distinct ids are preserved only when the new id is not in use already.
- The dragged id travels through the browser's drag data, so the model
  passes it to `Drop` as a parameter.
- The draft is reset after a submit (line 100). `AddRiskModal` stays
  mounted (line 262); because its `useState` comes after `return null`
  (line 88), closing the modal drops the draft, and opening it starts again
  from the defaults (lines 90-95). Pressing the header button while the
  modal is already open changes nothing, so the draft being typed is kept.

## Model

| member | source | states |
|---|---|---|
| AddRiskForm.Edit | src/App.jsx:123-161 | an input's change sets exactly its own field of the draft and leaves the other three fields unchanged |
| AddRiskForm.DefaultDraftShape | src/App.jsx:90-95 | the default draft has an empty title, so it cannot be submitted as is, and both levels are Medium, one of the select options |
| AddRiskForm.EditKeepsLevels | src/App.jsx:130-150 | edits whose level values come from the select options keep probability and impact among Low/Medium/High |
| AddRiskForm.EditSubmittable | src/App.jsx:117-124 | after an edit the draft can be submitted iff it has a non-empty title; only the title input changes that |
| RiskStore.BoardTables | src/App.jsx:217-222 | the column table has four lanes whose statuses are pairwise distinct and are exactly the four column statuses; the initial records have distinct ids, titles and column statuses |
| RiskStore.FromDraft | src/App.jsx:205-209 | the new record copies title, description, probability and impact from the draft, takes the given id, and has status New whatever the draft held |
| RiskStore.AddRecord | src/App.jsx:204-211 | add grows the list by exactly one; the earlier records are unchanged and in order; the new record is last |
| RiskStore.AddKeepsIdsDistinct | src/App.jsx:205-210 | if the new id is not in use, add keeps all ids distinct |
| RiskStore.AddKeepsInvariants | src/App.jsx:204-211 | add keeps every record in a column, and keeps every record titled when the draft has a title |
| RiskStore.PatchStatus | src/App.jsx:197-202 | drop keeps length and order; each record differs from its old value at most in status; the status is the lane's for every record whose id is the dropped id, and unchanged for all others |
| RiskStore.PatchUnknownId | src/App.jsx:198-201 | a drop whose id matches no record, including an unparsable payload, leaves the list unchanged |
| RiskStore.PatchOntoCurrentLane | src/App.jsx:199-201 | with distinct ids, dropping a record onto the lane it is in leaves the list unchanged |
| RiskStore.PatchKeepsInvariants | src/App.jsx:197-202 | drop keeps ids distinct and titles present, and keeps every record in a column when the target is a column status |
| RiskStore.Select | src/App.jsx:214 | the filter result holds exactly the records of the list that meet the criterion and is no longer than the list |
| RiskStore.SelectIsSubsequence | src/App.jsx:252 | filtering keeps the list order: the result is a subsequence of the list |
| RiskStore.SelectMultiset | src/App.jsx:214 | the filter result holds every copy of each matching record and no copy of any other record |
| RiskStore.SelectAppend | src/App.jsx:252 | filtering a concatenation is the concatenation of the filtered parts |
| RiskStore.SelectKeepsIdsDistinct | src/App.jsx:214 | filtering a list with distinct ids leaves distinct ids |
| RiskStore.RemoveId | src/App.jsx:213-215 | after delete, the records left are exactly the old records whose id differs from the deleted id |
| RiskStore.RemoveKeepsOrder | src/App.jsx:213-215 | delete keeps the remaining records in their original order and with their multiplicity; records with the id are all gone |
| RiskStore.RemoveCount | src/App.jsx:214 | delete shortens the list by exactly the number of records with the id |
| RiskStore.UsedIdMatchesOnce | src/App.jsx:213-215 | with distinct ids, an id in use is carried by exactly one record |
| RiskStore.RemoveEffect | src/App.jsx:213-215 | with distinct ids, deleting an id in use removes exactly one record; deleting an unused id leaves the list unchanged |
| RiskStore.RemoveKeepsInvariants | src/App.jsx:213-215 | delete keeps ids distinct, every record in a column, and titles present |
| BoardView.Lane | src/App.jsx:252 | a lane shows exactly the records whose status is the lane's status |
| BoardView.LaneCount | src/App.jsx:63-65 | the lane's count is at most the list length, and is zero iff no record has the lane's status |
| BoardView.LaneIsOrderedSelection | src/App.jsx:252 | a lane is the order-preserving subsequence of the records with its status, each as often as the list holds it |
| BoardView.LanesPartition | src/App.jsx:247-258 | when every status is a column status, the four lanes together hold exactly the records of the list, each once (multiset equality) |
| BoardView.LanesCountAt | src/App.jsx:247-258 | when every status is a column status, the four lanes together hold each record exactly as often as the list does |
| BoardView.LaneCountsSum | src/App.jsx:63-65 | when every status is a column status, the four lane counts add up to the list length |
| BoardView.EveryRecordInOneLane | src/App.jsx:217-222 | when every status is a column status, each record appears in one lane of the column table and in no other |
| BoardView.AddLandsInNewLane | src/App.jsx:204-211 | after add, the New lane is the old New lane followed by the new record, and every other lane is unchanged |
| BoardView.DropMovesRecord | src/App.jsx:197-202 | a dropped record is shown in the target lane, and no record with the dropped id is left in any other lane |
| BoardView.DropScenario | src/App.jsx:197-202 | with A (New) and B (Monitoring), dropping A onto Closed leaves New and Mitigating empty, Monitoring = [B], Closed = [A] |
| Colours.BadgeColor | src/App.jsx:6-16 | High, Medium and Low get red, orange and green; a level is grey iff it is not one of those three |
| Colours.BadgeTellsLevelsApart | src/App.jsx:7-11 | different select levels get different badge colours |
| Colours.LoggedRiskHasColouredBadges | src/App.jsx:47-48 | a risk logged from a draft whose levels are select options shows no grey badge |
| Colours.CardAccent | src/App.jsx:23-31 | the card's stripe is red iff the probability is High, and blue otherwise |
| App.ValidBoardPartitions | src/App.jsx:247-258 | on a board whose invariant holds, the four lanes together hold every record exactly once and their counts add up to the list length |
| App.RiskBoard.constructor | src/App.jsx:180-186 | the board starts with the three sample records, the modal closed and the default draft; ids are distinct and every status is a column status |
| App.RiskBoard.AddRisk | src/App.jsx:204-211 | the list becomes the old list with the draft's record appended; columns are kept; distinct ids are kept when the id is fresh |
| App.RiskBoard.Drop | src/App.jsx:197-202 | the list becomes the status rewrite of the old list for the payload and the lane's status; columns, distinct ids and titles are kept |
| App.RiskBoard.Delete | src/App.jsx:213-215 | the list becomes the old list without the records with the id; columns, distinct ids and titles are kept |
| App.RiskBoard.OpenModal | src/App.jsx:235-236 | the header button leaves the modal open and the list alone; a closed modal opens on the default draft, an already open one keeps its draft |
| App.RiskBoard.CloseModal | src/App.jsx:109-111 | the close button closes the modal and changes nothing else |
| App.RiskBoard.EditDraft | src/App.jsx:123 | an input changes the draft by one field edit |
| App.RiskBoard.Submit | src/App.jsx:97-102 | a draft with a title is appended under the given id, then the draft is reset and the modal closed; an untitled draft changes nothing and the modal stays open |

## Left out

- Rendering: JSX markup, Tailwind class strings other than the colour lookups, icons, the header, the "Drop here" placeholder and the badge text `{type}: {level}`. These are presentation only.
- The browser drag channel: `setData`/`getData` in `handleDragStart`/`handleDrop`, and `preventDefault` in `handleDragOver`. This is a platform API. The parsed payload is a parameter of `Drop`, with `None` for `NaN`.
- `Date.now()` as the id source. It depends on the clock, so the id is a parameter.
- React hook mechanics. `handleAddRisk` captures a stale `risks` instead of using the setter's previous value; the model applies each operation to the current list, one after another. The modal calls `useState` after its early `return null`; the model keeps only the visible effect of that, the reset of the draft when a closed modal is opened (`RiskBoard.OpenModal`), and leaves out the rest of the hook mechanics.
- The browser's enforcement of the `required` title attribute. Submit models only its outcome: an untitled draft is not submitted.
- Colours.BadgeColor: only own keys of the colour table are modelled. In JavaScript, a level such as `toString` would find an inherited property instead of the grey default. The select options never produce such a level.
