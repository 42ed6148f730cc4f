# US states visit tracker — verified model of the client core

The tracker is a web page with a map of the fifty US states. Two users, "user 1" (status
`ben`) and "user 2" (status `matt`), mark each state with a visit status: visited by one of
them, by both separately (`both`), by both together (`together`), or not at all. The
client, `public/app.js`, keeps the registry `stateData` (state code → status string) and
derives everything else from it:

- the four stat cards, with their counts and percentages;
- each state's colour on the map;
- the visited-states list opened from a card;
- the users' display names and the status colours.

This project models that client logic in Dafny:

- `wrappers.dfy` — `Option`.
- `visits.dfy` (module `Visits`) — statuses, the registry, and the inclusion rule for the cards:
  - `both` and `together` count toward each user;
  - `together` counts toward `both`;
  - any other value counts nowhere.
  - Holds the set-based card values `Tally`, the counting loop of `updateStats` (`CountVisits`), and lemmas: card ordering, the empty registry, ignored values, and a single update.
- `settings.dfy` (module `Settings`) — colours, names, their defaults, JavaScript's `trim`, and the save-names check.
- `paint.dfy` (module `Paint`) — `updateStateColor`: how a state's shape gets its status class and fill, including the stale class an unrecognised value leaves and the throw for a value holding white space.
- `state_names.dfy` (module `StateNames`) — the table of the fifty state names.
- `states_list.dfy` (module `StatesList`) — the per-card filter and label chain of `showStatesList`, its collecting loop, and how the lists relate to the cards.
- `sorting.dfy` (module `Sorting`) — the comparators of `renderStatesList`, an in-place insertion sort proved sorted and a permutation, and uniqueness of the sorted order.
- `app.dfy` (module `App`) — the dropdown's update of the registry (`Select`) and the class `Tracker`. `Tracker` holds the client's global state and the handlers that change it.

The registry holds raw strings, not statuses. `loadData` stores whatever JSON the server
returns, so a value outside the four names can be present. The counting loop and the list
filter compare against the exact names and skip anything else, and the model does the same.

## Model

| member | source | states |
|---|---|---|
| Visits.ParseStatus | public/app.js:469-483 | only the four exact names are statuses; a recognised value is the name of its status, anything else is none of the four |
| Visits.StatusNameRoundTrip | public/app.js:293-297 | the name the dropdown stores for a status is read back as that status |
| Visits.Percent | public/app.js:492-499 | the percentage of a count out of 50, rounded, is exactly twice the count |
| Visits.CountVisits | public/app.js:469-484 | the counting loop over the registry's values ends with each card equal to the number of states that count toward it |
| Visits.Bump | public/app.js:470-483 | one value's if-chain adds 1 to exactly the cards that value counts toward: ben → ben; matt → matt; both → ben, matt, both; together → all four; other values → none |
| Visits.CountStep | public/app.js:469-484 | visiting one more state keeps the loop's counts equal to the tally of the states visited so far |
| Visits.TallyOfStep | public/app.js:469-484 | adding a state to those counted changes each card by that state's contribution only |
| Visits.TallyOrdered | public/app.js:461-484 | together ≤ both ≤ ben ≤ number of marked states, and both ≤ matt ≤ number of marked states |
| Visits.TallyEmpty | public/app.js:462-467 | an empty registry shows zero on every card |
| Visits.TallyUpdate | public/app.js:293-297 | setting one state to a value changes each card by that value's contribution alone, whatever the state held before |
| Visits.UnrecognisedIgnored | public/app.js:469-483 | a value outside the four names leaves every card as if the state were unmarked |
| Settings.Trim | public/app.js:348-349 | trim drops exactly the leading and trailing white space: the result is a slice of the input, the dropped parts are white space, it is empty iff the input is blank, and otherwise its ends are not white space |
| Settings.TrimIdempotent | public/app.js:348-349 | trimming twice is trimming once |
| Settings.ValidateNames | public/app.js:347-359 | the save succeeds iff neither input is blank; the saved names are the trimmed inputs and are never empty |
| Settings.ValidateNamesStable | public/app.js:347-359 | saved names pass the check again and come out unchanged |
| Paint.StateColor | public/app.js:251-261 | the four known status classes are removed and every other class is kept, and no known class stays but the one for the state's own value; a state without a status, or holding "" or "none", is cleared; a state holding one of the four gets that status's class and colour; any other value that does not throw adds `status-<value>`, and a value outside the four keeps the fill; restyling throws exactly when the value holds ASCII white space; no class is added other than `status-<value>` |
| Paint.StatusClassAtMostOne | public/app.js:253-256 | a shape whose only status classes are the four known ones ends with at most one status class |
| Paint.UnknownStatusClass | public/app.js:252-257 | a fresh shape for the value "visited" gets the class `status-visited` and keeps its cleared fill |
| Paint.StaleClassSurvives | public/app.js:253-256 | a `status-visited` class is not among those removed, so after choosing "ben" the shape carries two status classes |
| StatesList.Label | public/app.js:512-531 | only the user cards label, and only recognised statuses; the exact labels per status are stated by StatesList.LabelFollowsInclusion |
| StatesList.Listed | public/app.js:534 | the list of a card shows only states its card counts; the converse is stated by StatesList.ListMatchesCard and StatesList.BothListOmitsTogether |
| StatesList.EntryFor | public/app.js:535-539 | a labelled row is a row the list pushes, and the row has a name exactly when its code is in the name table; StatesList.CollectVisited states that the list's rows are these |
| StatesList.CollectVisited | public/app.js:505-541 | the loop collects exactly the listed states of the card, each once, each row carrying the state's name and its label |
| StatesList.DistinctIdsCard | public/app.js:508-540 | a list without repeated states is as long as its set of states |
| StatesList.LabelFollowsInclusion | public/app.js:512-532 | a user list labels a state iff it counts toward that user's card: Individual for the user's own status, Separately for both, Together for together; other lists carry no label |
| StatesList.ListMatchesCard | public/app.js:508-540 | each user list, and the together list, shows exactly the states its card counts, so its length is the card's value |
| StatesList.BothListOmitsTogether | public/app.js:528-540 | the both list and the together list are disjoint, and together they hold exactly what the both card counts, so their lengths add up to it |
| Sorting.NameLe | public/app.js:579 | a prefix of a name comes before it; the order's laws are Sorting.NameLeTotal, Sorting.NameLeTransitive and Sorting.NameLeAntisymmetric |
| Sorting.OrderingOf | public/app.js:577-580 | exactly "alphabetical" and "visitType" select a sort; any other value sorts nothing |
| Sorting.Rank | public/app.js:582 | the ranks lie in 1..3 and Individual alone has rank 1 |
| Sorting.Before | public/app.js:579-587 | in the visit-kind order a row may precede another only if its rank is not higher, and rows of equal kind (or any rows by name) go by name; its laws are Sorting.BeforeTotal and Sorting.BeforeTransitive |
| Sorting.NameLeTotal | public/app.js:579 | any two names are ordered one way or the other |
| Sorting.NameLeTransitive | public/app.js:579 | the name order is transitive |
| Sorting.NameLeAntisymmetric | public/app.js:579 | two names that precede each other are equal |
| Sorting.BeforeTotal | public/app.js:583-587 | the comparator of either order relates any two comparable rows one way or the other |
| Sorting.BeforeTransitive | public/app.js:583-587 | the comparator of either order (rank first, then name) is transitive |
| Sorting.SortEntries | public/app.js:577-588 | the sort leaves the array sorted by the chosen comparator and a permutation of what it held |
| Sorting.InsertRow | public/app.js:577-588 | one insertion pass extends the sorted prefix by one row and keeps the array a permutation |
| Sorting.SortedUnique | public/app.js:574-588 | when no two rows tie, two sorted permutations of the same rows are equal, so the sort's result is determined |
| Sorting.ExampleInOrder | public/app.js:581-588 | Alaska (Individual), Ohio (Individual), Texas (Separately) is in visit-kind order with no ties |
| Sorting.VisitTypeExample | public/app.js:581-588 | sorting Texas (Separately), Alaska (Individual), Ohio (Individual) by visit kind gives Alaska, Ohio, Texas |
| App.Select | public/app.js:293-297 | "None" removes the state's key, a status sets it to that status, and no other key changes |
| App.SelectIdempotent | public/app.js:293-297 | making the same choice twice changes nothing the second time |
| App.SelectPaints | public/app.js:293-299 | after a choice the known status classes give way to the chosen status's class and colour, or the shape is cleared for "None"; restyling never throws |
| App.SelectTally | public/app.js:293-300 | after a choice each card counts the other states as before plus the chosen status's contribution |
| App.Tracker.constructor | public/app.js:71-74 | start-up: empty registry, no open state, default colours and names, no open list |
| App.Tracker.LoadData | public/app.js:142-153 | the registry becomes the server's mapping, or empty when the request fails |
| App.Tracker.LoadSettings | public/app.js:156-176 | a present key replaces that setting wholesale and a missing key keeps it; a failure resets both to the defaults |
| App.Tracker.ClickState | public/app.js:263-265 | clicking a state opens the dropdown for that state |
| App.Tracker.UpdateStats | public/app.js:461-499 | the card values are the tally of the registry and are ordered together ≤ both ≤ ben, both ≤ matt, all ≤ number of marked states; each percentage shown is twice its card's value |
| App.Tracker.ChooseStatus | public/app.js:288-307 | with an item and an open state the registry takes the choice, the state's shape is restyled from it without throwing, the cards are redrawn, and the open state is cleared; otherwise nothing changes |
| App.Tracker.OpenNamesEditor | public/app.js:324-332 | the name inputs start with the current names |
| App.Tracker.EditNameInputs | public/app.js:35-36 | user input, not source code: the two name inputs hold what the user typed |
| App.Tracker.SaveNames | public/app.js:347-359 | a blank input refuses the save and keeps the names; otherwise the names become the trimmed inputs |
| App.Tracker.ConfirmReset | public/app.js:390-406 | the registry is emptied, with every card at zero, only when the reset succeeds; on failure it is unchanged |
| App.Tracker.OpenColorEditor | public/app.js:409-419 | the colour pickers start with the current colours |
| App.Tracker.EditColorInput | public/app.js:51-54 | user input, not source code: picking a colour for one status changes that picker only |
| App.Tracker.ResetColorInputs | public/app.js:434-439 | "reset to default" puts the default colours in the pickers and leaves the saved colours alone |
| App.Tracker.SaveColors | public/app.js:442-448 | the colours become the four picker values, wholesale |
| App.Tracker.RenderStatesList | public/app.js:574-589 | the shown list is a sorted permutation of the open list for a known order, and the open list itself in any other order; the open list is not changed |
| App.Tracker.ShowStatesList | public/app.js:503-571 | the open list becomes exactly the card's listed states, each once and labelled, and it is shown sorted by name |

## Left out

- The page itself is not modelled: DOM updates, tooltips, modals, toasts, loading spinner, the titles and sort-chip highlighting in `showStatesList`, `applyCustomNames`, `applyCustomColors`, `createStateItem` and the listener wiring. None of them changes the client's state.
- Network calls (`fetch` in `loadData`, `loadSettings`, `saveSettings`, `saveState` and the reset request) become parameters: the response, or whether it succeeded. The persistence round trip is not modelled; `server.js` is not part of this model.
- Paint.StateColor: a throw is returned as `Threw`, but its effect on `loadMap` is not modelled. There the throw ends the drawing of the remaining states, and start-up never hides the spinner or attaches the card listeners. `loadMap` itself is not part of this model.
- Paint.StateColor: the shape's current classes and fill are a parameter, not read from the page. Assigning `undefined` as a fill is modelled as keeping the fill, which is what a style does with a value it cannot parse. Whether a colour string is a valid CSS colour is not modelled.
- App.Tracker.ChooseStatus: the registry update is kept and the `saveState` outcome is ignored, as in the source. The dropdown is modelled as cleared right after the update, without the `await` in between, during which other handlers could run.
- Visits.Percent: it is computed on exact reals, not IEEE doubles. For whole counts the two agree, and the shown text `count/50 (p%)` is not built.
- Sorting.NameLe: it is plain character-by-character order on strings, standing in for the locale-dependent `localeCompare`.
- Sorting.SortedUnique: it is not applied to the lists the page builds. That would need the fifty-name table to be one-to-one, and no proof of that is given.
- Sorting.SortEntries: it is an insertion sort standing in for the engine's `Array.prototype.sort`. Only the contract (sorted and a permutation) is shared, not the algorithm. With ties the order among tied rows is not stated.
- App.Tracker.RenderStatesList: it requires every row to have a name, and a label for the visit-kind order. In the source a row without a name (a code outside the fifty) makes the name comparison throw only when that row is the comparator's first argument. As the second argument, its name is compared as the text "undefined". A one-row list is never compared at all. A row without a label makes the visit-kind comparator return NaN, and the page hides the sort chips for unlabelled lists.
- App.Tracker.ShowStatesList: it requires every listed state code to be one of the fifty, because it sorts by name at once. In the source an unknown code throws only when its row is the first argument of a comparison. Otherwise its name is compared as "undefined", and a one-row list is not compared. The client itself only writes codes from the map, so this concerns registries loaded from the server.
- StatesList.CollectVisited: the order in which `Object.keys` lists the registry is not modelled, because the loop picks the next state from the set of those left. The list's contents are stated, and the sort fixes the order that is shown.
- Registry values that are not strings (any JSON the server returns) are not modelled. Every value is a string.
- Settings with missing colour or name fields are not modelled: a loaded `colors` or `names` object is taken as complete.
- `loadMap` (map geometry, skipped `'PASTE_PATH_HERE'` paths) and the hover tooltip's name lookup are not modelled. They draw only.
