# Prompt store of the prompts manager

The prompts manager is a single-page widget that keeps a list of prompts
(each a title and a rich-text content) in the browser. Its only logic beyond
DOM plumbing is the prompt store in `scripts.js`. The store is one shared
state record holding the ordered list `prompts` and the optional
`selectedID`. Four operations change it:

- `save` validates the trimmed title and content. It then overwrites the
  selected prompt, or creates a prompt at the front of the list and selects
  it. Finally it persists the list.
- `newPrompt` clears the selection.
- The list's remove button filters the prompt out and persists the list.
- `load` reads the list back from storage and clears the selection.

The list's select click only looks a prompt up and shows it; it does not
change the selection. The search box filters the list by title, ignoring
case.

This project models that store in Dafny:

- `text.dfy` (module `Text`) holds the string operations the store uses:
  `trim`, `toLowerCase` and `includes`, for ASCII.
- `sequences.dfy` (module `Sequences`) holds `Keep`, the order-preserving
  selection that `Array.prototype.filter` performs, and `IsSubsequence`.
- `prompts.dfy` (module `Prompts`) holds the `Prompt` record and the pure
  list operations: first-match lookup, the overwrite `save` performs, the
  removal filter and the title search.
- `store.dfy` (module `PromptStore`) holds the `Store` class. Its fields
  `prompts`, `selectedID` and `slot` are the state record and the storage
  slot. Its methods are the operations above, plus `Persist` and `Load`.

The storage slot is abstract. `Slot` is `Absent` (no value yet),
`Stored(list)`, or `Unreadable`. `Unreadable` stands for storage that
throws, or a value `JSON.parse` rejects. A failing `setItem` is the
`storageOk == false` argument of `Persist`, `Save` and `Remove`. The clock
behind `Date.now().toString(36)` becomes the `freshId` argument of `Save`.

`Valid()` says that ids are pairwise distinct in the list and in the stored
copy. Every operation keeps it, provided `Save` is given an unused
`freshId`. `SelectionResolves()` says that the selection is empty or names a
prompt in the list. The store evidently means the selection to be the
prompt being edited, so it should always name a listed prompt. The code as
written does not keep it: `Remove` leaves the selection alone (see
"Findings").

The model follows the code as written, including where it departs from that
intent:

- Remove does not clear the selection. The corrected behaviour is modelled
  separately as `RemoveAndDeselect`.
- A save after the selected prompt was removed does not create a prompt,
  duplicate or otherwise. It leaves the list and the selection unchanged,
  still writes the list to storage and reports success.
- Clicking a prompt in the list shows it but does not select it, so the
  next save overwrites the previously selected prompt. The corrected click
  is modelled separately as `SelectForEdit`.
- A stored value that cannot be read leaves the list and the selection as
  they were. It does not reset them to empty. The `try` block wraps both
  assignments in `load`.
- The search needle is computed as `toLowerCase().trim()`, not trim then
  lower-case. `LowerTrimCommute` shows the two agree.

## Model

| member | source | states |
|---|---|---|
| `PromptStore.Store.constructor` | scripts.js:3-6 | the store starts with an empty list and no selection; the slot holds whatever an earlier session stored; ids are distinct from the start when the stored list has distinct ids |
| `PromptStore.Store.Save` | scripts.js:52-80 | rejects exactly when the title or the content is blank, and then changes nothing, not even storage; with a truthy selection it overwrites the first prompt with that id and keeps the selection; a selection naming no prompt leaves the list unchanged; otherwise it puts a prompt with the fresh id and the trimmed fields at the front and selects it; after a save the slot holds the new list, unless the write failed; keeps ids distinct when `freshId` is unused; keeps a resolving selection resolving |
| `Text.Trim` | scripts.js:53-54 | the trimmed text is empty exactly when the input is all white space (the validation test of `save`) |
| `Text.TrimEnds` | scripts.js:53-54 | trimmed text neither starts nor ends with white space |
| `Text.TrimIsSlice` | scripts.js:53-54 | trimmed text is the slice of the input after its leading white space, followed only by white space |
| `Text.TrimUnpadded` | scripts.js:53-54 | text with no white space at either end is its own trim |
| `Prompts.FindIndex` | scripts.js:63 | the index of the first prompt with the id; none exactly when no prompt has that id |
| `Prompts.UpdateFirst` | scripts.js:63-67 | the overwrite keeps the length and the id at every position |
| `Prompts.UpdateFirstKeepsIds` | scripts.js:63-67 | the overwrite keeps the set of ids, and distinct ids stay distinct |
| `Prompts.UpdateFirstAbsent` | scripts.js:63-64 | when no prompt has the id, `find` finds nothing and the list is unchanged |
| `Prompts.UpdateFirstAt` | scripts.js:63-67 | at the first index with the id the prompt takes the new title and content; every other position is unchanged |
| `Prompts.UpdateFirstChangesOnlyFound` | scripts.js:63-67 | only the prompt `find` returns changes, to the new title and content; with no such prompt the list is unchanged |
| `Prompts.SameIdsAt` | scripts.js:65-66 | lists with the same id at every position have the same ids, and one has distinct ids when the other has |
| `Prompts.PrependDistinct` | scripts.js:69-75 | a new prompt with an unused id put at the front keeps ids distinct |
| `PromptStore.Store.Persist` | scripts.js:82-88 | a successful write stores the whole ordered list; a failed write leaves the slot as it was |
| `PromptStore.Store.Load` | scripts.js:90-98 | no stored value gives the empty list; a stored list is taken as is; either way the selection is cleared; an unreadable slot changes nothing; keeps ids distinct and the selection resolving |
| `PromptStore.Store.PersistThenLoad` | scripts.js:82-98 | persisting and then loading gives back the same ordered list, with the selection cleared |
| `Sequences.Keep` | scripts.js:115-116 | `filter` keeps the elements satisfying the test, in their order; the count of each element is kept exactly when it passes the test, and is zero otherwise; nothing is dropped when all pass |
| `Sequences.SubsequenceMembers` | scripts.js:115-116 | every element of a filtered list is in the original list |
| `Text.Lower` | scripts.js:116 | lower-casing keeps the length; it maps each ASCII capital to its small letter and leaves every other character alone |
| `Text.Includes` | scripts.js:116 | `includes` holds exactly when the needle occurs at some position |
| `Text.EmptyIncluded` | scripts.js:116 | the empty needle is included in every title |
| `Text.NotIncludedWithoutFirstChar` | scripts.js:116 | a needle whose first character is absent from the title is not included |
| `Text.LowerTrimCommute` | scripts.js:116 | lower-casing then trimming the query equals trimming then lower-casing it |
| `Text.BlankNeedle` | scripts.js:116 | a blank query gives the empty needle |
| `Prompts.Filter` | scripts.js:114-118 | the search result is an order-preserving subsequence of the list; a prompt is in it exactly when its lower-cased title includes the lower-cased trimmed query; each matching prompt keeps its count |
| `Prompts.BlankQueryShowsAll` | scripts.js:114-118 | an empty or blank query shows the whole list in its order |
| `Prompts.FilterByTrimmedLowerQuery` | scripts.js:116 | the search is equally a match of the lower-cased title against the lower-cased, trimmed query |
| `Prompts.FilterExampleAllMatch` | scripts.js:114-118 | with titles "Alpha", "beta", "Gamma", the query "a" shows all three |
| `Prompts.FilterExampleOneMatch` | scripts.js:114-118 | with the same titles, the query "Be" shows only "beta" |
| `Prompts.FilterExampleEmptyQuery` | scripts.js:114-118 | with the same titles, the empty query shows all three in order |
| `PromptStore.Store.NewPrompt` | scripts.js:123-124 | clears the selection and touches nothing else |
| `Prompts.RemoveId` | scripts.js:144 | the list after removal is an order-preserving subsequence; it holds exactly the prompts whose id differs, each as often as before; no prompt with that id remains; an absent id leaves the list unchanged; distinct ids stay distinct |
| `Prompts.SubsequenceDistinct` | scripts.js:144 | dropping prompts from a list with distinct ids keeps them distinct |
| `PromptStore.Store.Remove` | scripts.js:143-147 | the list becomes the removal filter of the old list, then it is persisted; the selection is not touched; ids stay distinct |
| `PromptStore.Store.Select` | scripts.js:149-157 | the lookup returns the first prompt with the id, or none exactly when no prompt has it; the store is not changed, the selection included |
| `PromptStore.SaveAfterSelect` | scripts.js:62-67 | create "a", start a new prompt, create "b", click "a", save "X"/"Y": the save overwrites "b", not the clicked "a", and the selection stays "b" |
| `PromptStore.Store.SelectForEdit` | scripts.js:149-157 | corrected click: the same lookup, and a found prompt also becomes the selection; keeps the selection resolving |
| `PromptStore.SaveAfterSelectForEdit` | scripts.js:62-67 | the same steps with the corrected click: the save overwrites "a" and leaves "b" as it was |
| `PromptStore.StaleSelectionAfterRemove` | scripts.js:62-79 | save "T"/"C" (id "a"), then remove "a", then save again: the second save reports success, the list stays empty, storage holds the empty list and the selection still names "a" |
| `PromptStore.Store.RemoveAndDeselect` | scripts.js:143-147 | corrected removal: it also clears a selection naming the removed id, and so keeps the selection resolving |
| `PromptStore.SaveAfterRemoveAndDeselect` | scripts.js:62-75 | the same steps with the corrected removal: the second save creates prompt "b" and selects it |

## Findings

| source | as written | input that shows it | evidently intended | confidence | as-written member | corrected member |
|---|---|---|---|---|---|---|
| scripts.js:144 | the remove branch filters the list but leaves `selectedID` naming the removed prompt; the next save takes the update branch and finds nothing; it leaves the list and the selection unchanged, still writes the list to storage and alerts success | save title "T" and content "C" (new id "a"), remove "a", save "T"/"C" again | removing the selected prompt clears the selection, so the next save creates a prompt | medium, not executed | `PromptStore.StaleSelectionAfterRemove` | `PromptStore.Store.RemoveAndDeselect` |
| scripts.js:149-157 | the select branch shows the clicked prompt in the editor but never sets `selectedID`; the next save overwrites whichever prompt was selected before, or creates a new one | save "A"/"C" (new id "a"), new prompt, save "B"/"C" (new id "b"), click "a", save "X"/"Y" | clicking a prompt selects it, so the save overwrites the prompt shown | medium, not executed | `PromptStore.SaveAfterSelect` | `PromptStore.Store.SelectForEdit` |

`Store.Remove` and `Store.Select` keep modelling the code as written.
`RemoveAndDeselect` and `SelectForEdit` are the corrected operations, and
the scenarios `SaveAfterRemoveAndDeselect` and `SaveAfterSelectForEdit` use
them.

## Left out

- DOM access and rendering are left out: the element lookups, the
  placeholder styling of the editable fields, the sidebar, the HTML of list
  items, the `innerHTML` assignment, focus, the event wiring and `init`.
  `renderList` is modelled only through its search predicate, because
  rendering changes no store state.
- `alert` and `console.log` are left out. The two alerts of `save` become
  its `Rejected`/`Saved` result. Log output is not modelled.
- `localStorage` and JSON are abstracted into `Slot`. The model does not
  cover a stored value that parses to something other than a list of
  prompts. It also does not cover an empty stored string, which the code
  treats like a missing value.
- `PromptStore.Store.Save`: ids come from a `freshId` argument, not from
  `Date.now().toString(36)`. Two saves in the same millisecond could repeat
  an id in the real code, so `Valid()` is preserved only when `freshId` is
  unused.
- `Text.Trim`, `Text.Lower`: only ASCII white space and ASCII letters are
  modelled. Unicode white space such as no-break space, and non-ASCII case
  mappings, are left out.
- Prompt records are values. The in-place field assignment of `save` is
  modelled as replacing the first matching element of the list. No other
  reference to a prompt object exists in the code, so no aliasing is lost.
- The list click handler's lookup of the clicked item, and the early return
  when there is none, are left out. The clicked id is the argument of
  `Remove` and `Select`.
