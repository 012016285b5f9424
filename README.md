# TimeWeaver calendar management, modelled in Dafny

TimeWeaver lets a person register calendars. A calendar comes either from
an iCalendar feed or from cells clicked on a weekly grid. The person can
then look at one calendar or at the combination of all of them. This
project models the logic of the view module `src/views/manageCalendars.js`,
in four parts:

- **Manual selection.** The module-level `cellList` holds the ids of the
  clicked grid cells. Each grid cell carries a selected mark. Class
  `ManageCalendars.ManualEntry` holds both as fields: `cellList: seq<string>`
  and `selected: set<string>`. `setCell` is specified by the pure
  `Toggle` on a `Selection` value. The invariant is `Consistent`: an id is
  listed exactly when it is selected, and no id is listed twice.
  `initializeCellListeners` establishes it and every click keeps it.
- **Manual calendar construction.** `setupNewManual` maps the listed ids
  to cells `{id, users: [name], numPeople: 1}`, passes each through the
  cell schema, builds the stored record and empties `cellList`.
- **iCalendar set-up.** `applyNewFormat` keeps tokens 0, 3 and 4 of
  `date.split(" ")` (module `JsStrings` models `split(" ")` and joining
  with single spaces). `setupNewIcal` reformats every event of the current
  week and builds the record for the store.
- **Displays.** `viewCombinedCalendar` folds `combine` over the stored
  calendars, in list order, starting from `{cells: []}`. `openCalendar`
  shows the first stored calendar of the given person.

The helpers the view calls are not part of this model: `combine`,
`converter`, `selectCurrentWeek`, `calendarCellSchema.parse`,
`CalendarStore.addCalendar` and `onDisplay`. Each of the first four is a
function-typed parameter of the member that calls it. The schema is a
parameter `schemaParse: Cell -> Option<Cell>`, where `None` means `parse`
throws. One assumption is made about it, and only where it is stated: the
predicate `PassesThrough` says that a cell the schema accepts comes back
unchanged. It appears in the requires of `ManualRecordCells` and
`ManualDocWellFormed` and nowhere else. `JSON.stringify` and `JSON.parse`
are `Calendar.Stringify` and `Calendar.Parse`. Stored text is either a
serialised document or `Malformed`, text on which `JSON.parse` throws.
`Stringify` only produces the former. The converter's output may be
either, so `viewCombinedCalendar` has an error path. The set-up members
return the record that `setupNewIcal` and `setupNewManual` pass to
`addCalendar`. What is displayed is returned as a `Display` value.

Observations the proofs make precise:

- A "click" below is one call of `setCell`.
- Two clicks on the same cell restore `cellList` and the marks exactly
  when the cell started unselected and its id was not listed
  (`ToggleTwiceFromUnselected`). This holds in every state, including the
  inconsistent one a successful set-up leaves behind. When it
  started selected, the marks come back and its id moves to the end of the
  list. The list is then restored exactly when the id was already last
  (`ToggleTwiceFromSelected`).
- `setupNewManual` empties `cellList` but leaves the grid marks alone. After
  a successful set-up the state is consistent only if no cell was marked.
  `uploadManual` shows the modal (line 75) and then calls
  `initializeCellListeners` (line 76). That reset runs synchronously, so it
  restores consistency before any click can arrive.
- `applyNewFormat` needs no precondition. A missing token prints as
  `undefined`, which contains no space, so the result always splits into
  exactly three tokens.

## Model

| member | source | states |
|---|---|---|
| `Calendar.Stringify` | src/views/manageCalendars.js:149 | parsing a serialised document gives the document back (the `JSON.stringify`/`JSON.parse` pair at lines 87, 90 and 149) |
| `Calendar.Parse` | src/views/manageCalendars.js:87 | `JSON.parse` of stored text: the document, or failure on malformed text; its round trip with `Stringify` is the ensures of `Calendar.Stringify` |
| `JsStrings.Split` | src/views/manageCalendars.js:127 | `split(" ")` yields one more token than the input has spaces, and no token contains a space |
| `JsStrings.SplitJoin` | src/views/manageCalendars.js:127-128 | for any non-empty list of tokens without spaces (tokens may be empty), splitting their space-joined string gives the list back |
| `JsStrings.JoinSplit` | src/views/manageCalendars.js:127 | joining the tokens of `split(" ")` with single spaces gives the input back |
| `ManageCalendars.RemoveAll` | src/views/manageCalendars.js:212 | the filter `x != id`; its contract is carried by `RemoveAllMultiset`, `RemoveAllSubsequence`, `RemoveAllMembership`, `RemoveAllLast` and `RemoveAllNoDuplicates` |
| `ManageCalendars.RemoveAllMultiset` | src/views/manageCalendars.js:212 | the filter removes every occurrence of the id and keeps every occurrence of every other id |
| `ManageCalendars.RemoveAllSubsequence` | src/views/manageCalendars.js:212 | the filtered list is a subsequence of the original, so the kept ids stay in their relative order |
| `ManageCalendars.RemoveAllMembership` | src/views/manageCalendars.js:212 | an id is in the filtered list exactly when it was in the list and is not the removed id |
| `ManageCalendars.RemoveAllLast` | src/views/manageCalendars.js:212 | filtering `p + [id]` where `p` lacks `id` gives `p` |
| `ManageCalendars.RemoveAllNoDuplicates` | src/views/manageCalendars.js:212 | filtering a list without repeated ids yields a list without repeated ids |
| `ManageCalendars.Toggle` | src/views/manageCalendars.js:206-218 | one `setCell` call on the selection state; its contract is carried by `ToggleSelected`, `ToggleUnselected`, `ToggleConsistent`, `ToggleTwiceFromUnselected` and `ToggleTwiceFromSelected` |
| `ManageCalendars.ToggleSelected` | src/views/manageCalendars.js:206-212 | clicking a selected cell removes all its entries, keeps the rest in order and unmarks it |
| `ManageCalendars.ToggleUnselected` | src/views/manageCalendars.js:213-217 | clicking an unselected cell leaves the earlier entries unchanged, appends its id and marks it |
| `ManageCalendars.ToggleConsistent` | src/views/manageCalendars.js:206-218 | a click preserves "listed exactly when selected, each id once" |
| `ManageCalendars.ToggleTwiceFromUnselected` | src/views/manageCalendars.js:206-218 | two clicks on a cell that is neither marked nor listed restore list and marks exactly, in any state, consistent or not |
| `ManageCalendars.ToggleTwiceFromSelected` | src/views/manageCalendars.js:206-218 | two clicks on a selected cell restore the marks and move its id to the end; the list is restored exactly when the id was last |
| `ManageCalendars.ClicksConsistent` | src/views/manageCalendars.js:183-218 | from a consistent state, such as the one the reset leaves, any run of clicks leaves a consistent state |
| `ManageCalendars.ManualEntry.constructor` | src/views/manageCalendars.js:41 | at module load `cellList` is empty |
| `ManageCalendars.ManualEntry.InitializeCellListeners` | src/views/manageCalendars.js:182-193 | the list is emptied, every cell is unmarked, and the state is consistent |
| `ManageCalendars.ManualEntry.SetCell` | src/views/manageCalendars.js:206-218 | the new state is `Toggle` of the old one; consistency is kept |
| `ManageCalendars.ManualEntry.SetupNewManual` | src/views/manageCalendars.js:133-150 | returns the manual record of the old list; empties the list on success and keeps it when the schema throws; leaves the marks unchanged |
| `ManageCalendars.ManualCells` | src/views/manageCalendars.js:136-142 | one cell per listed id, in order, with that id, `users == [name]` and `numPeople == 1` |
| `ManageCalendars.ParseCells` | src/views/manageCalendars.js:136-142 | succeeds exactly when the schema parses every cell, and then holds the schema's outputs in order; otherwise fails with the id of the first rejected cell |
| `ManageCalendars.ManualRecord` | src/views/manageCalendars.js:136-150 | the record `setupNewManual` hands to the store; its contract is carried by `ManualRecordSpec`, `ManualRecordCells` and `ManualDocWellFormed` |
| `ManageCalendars.ManualRecordSpec` | src/views/manageCalendars.js:136-150 | the record is refused, with the first rejected id, exactly when the schema rejects a cell; otherwise it has `user == name`, `icalUrl == ""` and, in list order, the schema's output for each `{id, [name], 1}` |
| `ManageCalendars.ManualRecordCells` | src/views/manageCalendars.js:136-150 | with a schema that passes accepted cells through, the stored cells are exactly `{id, [name], 1}` per listed id, in order |
| `ManageCalendars.ManualDocWellFormed` | src/views/manageCalendars.js:136-150 | from a consistent selection and such a schema, the stored document has `numPeople == |users|` in every cell and no repeated id |
| `ManageCalendars.TokenAt` | src/views/manageCalendars.js:128 | what `${arr[k]}` prints: the token, or `undefined` past the end; used by `ApplyNewFormatTokens` |
| `ManageCalendars.ApplyNewFormat` | src/views/manageCalendars.js:126-130 | `applyNewFormat`; its contract is carried by `ApplyNewFormatTokens` |
| `ManageCalendars.ApplyNewFormatTokens` | src/views/manageCalendars.js:126-130 | the output splits into exactly tokens 0, 3 and 4 of the input; a missing token is `undefined`; with five or more tokens they are the input's own |
| `ManageCalendars.FormatEvents` | src/views/manageCalendars.js:102-107 | keeps the number and order of events, and each start and end is `applyNewFormat` of the original |
| `ManageCalendars.IcalRecord` | src/views/manageCalendars.js:94-118 | the record carries the entered name as `user` and the entered URL as `icalUrl`, and its document is the converter's output for the reformatted current-week events |
| `ManageCalendars.CombineStep` | src/views/manageCalendars.js:86-87 | one loop step: parse the stored text and combine it into the accumulator, failing where `JSON.parse` throws; used by `CombineFromSnoc` |
| `ManageCalendars.CombineFrom` | src/views/manageCalendars.js:83-88 | the left fold of the loop; its contract is carried by `CombineFromSnoc` and `CombineFromDefined` |
| `ManageCalendars.CombineAll` | src/views/manageCalendars.js:83-88 | the fold started from `{cells: []}`; `ViewCombinedCalendar`'s ensures ties the loop to it |
| `ManageCalendars.CombineFromSnoc` | src/views/manageCalendars.js:83-88 | folding one more calendar combines it into the fold of the earlier ones, or fails if its text does not parse |
| `ManageCalendars.CombineFromDefined` | src/views/manageCalendars.js:85-87 | the fold succeeds exactly when every stored document parses |
| `ManageCalendars.ViewCombinedCalendar` | src/views/manageCalendars.js:80-91 | succeeds exactly when every stored document parses; then shows the left fold of `combine` from `{cells: []}` with the list length as count; an empty list shows the empty document with count 0 |
| `ManageCalendars.RecordsOf` | src/views/manageCalendars.js:49-51 | the filter is non-empty exactly when some record belongs to the name, and its first element is the first such record |
| `ManageCalendars.OpenCalendar` | src/views/manageCalendars.js:46-54 | shows the first record whose `user` is the name, with count 1; fails exactly when there is none |
| `ManageCalendars.OpenCalendarIgnoresLater` | src/views/manageCalendars.js:49-53 | records appended later never change what is shown for a name that already has one |

## Left out

- DOM and jQuery plumbing: element lookups, modals, button listeners, the `hasInitializedManual` guard, cell background colours, clearing the input fields, and page titles other than the one in `Display`. A click is modelled as one `setCell` call. The guard is set only inside the click handler (lines 195-199), so opening the dialog twice before the first click attaches two listeners per cell; one physical click then runs `setCell` twice, which the model sees as two clicks.
- `updateCalList` and `resetCalendar`: they only rebuild navigation elements or call the display.
- `urlToJSON`: the network fetch is I/O, so `IcalRecord` takes the fetched feed as a parameter. A fetch that fails throws before any record is built, and the model does not represent that case.
- `IcalRecord`: assumes the name and URL inputs do not change while the fetch is awaited. The source reads the URL once before the fetch (line 97) and again afterwards (line 116).
- `IcalRecord`: the source passes the events to `converter` as the text of `{events: [...]}`; the model passes the event list itself.
- `combine`, `converter`, `selectCurrentWeek` and `calendarCellSchema.parse` are parameters; their code is not part of this model. No identity or associativity of `combine` is assumed or proved.
- `ManualRecordCells` and `ManualDocWellFormed` state their results only for a schema that returns accepted cells unchanged (`PassesThrough`), because the schema's code is not part of this model.
- `CalendarStore.addCalendar` and `onDisplay` are not part of this model. The set-up and view members return the record or display value that would be handed to them.
- `ViewCombinedCalendar`: stored text that parses but is not a calendar document is not modelled. Such text is handed to `combine` in the source; the model only distinguishes a serialised document from text on which `JSON.parse` throws.
- `ManualEntry`: selection is keyed by cell id, so the model treats two grid cells with the same id as one cell.
- `ViewCombinedCalendar`: the source iterates with `for (let cal in calList)`. On an array this visits the indices in ascending order, and the model folds in that order.
