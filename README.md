# Task list and contact browser: a verified model

This project models the list logic of two front-end exercises, leaving out their React rendering.

- **Problem 1** is a task list. Its view keeps the tasks whose lower-cased status equals the selected filter, or all tasks when the filter is `all`. It then shows active tasks first, completed tasks second and every other task last. Within each group the list order is kept. Submitting the form appends a task to the backing list.
- **Problem 2** is a paginated contact browser. The `useContactData` hook accumulates pages of contacts and shows them without repeats. It tracks a loading indicator and a next-page cursor. `nextPage` appends the next page in the background, and `setQuery` reloads from the first page of a search. The dialog's `results` memo keeps the contacts at even 1-based positions when a toggle is on. It keeps only United States contacts when the view type is `us`. Reaching the bottom of the scrolled dialog asks for the next page.

Files:

- `seqs.dfy` (module `Seqs`): `Array.prototype.filter`, subsequences, duplicate-freedom and first occurrences.
- `strings.dfy` (module `Strings`): `toLowerCase`.
- `task_list.dfy` (module `TaskList`): Problem 1.
- `contacts.dfy` (module `Contacts`): the pure part of Problem 2, namely `removeDuplicate`, the `results` memo and the view type.
- `contact_store.dfy` (module `ContactStore`): the state of `useContactData` as class `ContactData`, with `loadData`, `nextPage`, `setQuery` and `handleScroll`.

The grouping loop of Problem 1 is proved against a reference definition. `Grouped(s, key)` is three filters concatenated: active, completed, other. Permutation, ordering and stability are proved about that definition for every classifier `key`, and then used with the source's classifier `GroupOf`.

`loadData` is an `async` function. The model splits it at its `await` into `Start` and `Finish`. Other events, such as a scroll, can happen between the two. A `Request` value records the URL and the two options of one call. The decoded response is passed to `Finish` as a `Page`.

Three points about the code that the model makes explicit:

- `nextPage` neither checks nor sets `isLoading`, so a second background load can start while one is in flight. `ScrollTwiceBeforeResponse` proves that two bottom-of-scroll events before the page arrives request the same page twice.
- The code stores the raw pages and de-duplicates only the exposed `data` (`ContactData.View`), so the raw list may hold repeats. `MountRacesEmptySearch` shows one way they arise.
- The mount load is `loadData(initialUrl)` with the default options. It appends (`resetPage` is false) and uses the indicator.

## Model

| member | source | states |
|---|---|---|
| `Strings.ToLower` | src/components/Problem-1.jsx:18 | lower-casing keeps the length, leaves no upper-case ASCII letter, changes letters only in case and keeps every other character |
| `Strings.ToLowerEquals` | src/components/Problem-1.jsx:18-21 | a string lower-cases to a word iff the word has no upper-case letter and the string spells it in any mix of cases |
| `Seqs.Filter` | src/components/Problem-1.jsx:11 | `Array.prototype.filter` (also Problem-2.jsx:69 and 76): never longer than its input; its meaning is stated by the lemmas below |
| `Seqs.FilterMembership` | src/components/Problem-1.jsx:11 | `filter` keeps exactly the elements that satisfy the predicate |
| `Seqs.FilterCount` | src/components/Problem-1.jsx:11 | `filter` keeps every copy of an element that satisfies the predicate and no copy of one that does not |
| `Seqs.FilterIsSubsequence` | src/components/Problem-2.jsx:76 | a filter result is a subsequence of its input |
| `Seqs.FilterAppend` | src/components/Problem-1.jsx:17-23 | filtering distributes over concatenation |
| `TaskList.GroupOf` | src/components/Problem-1.jsx:18-22 | the group of a task from its lower-cased status; characterised by `TaskList.GroupIgnoresCase` |
| `TaskList.FilterByStatus` | src/components/Problem-1.jsx:8-11 | with `all` the list is unchanged; otherwise a task is kept iff its lower-cased status equals the selection, with as many copies as the list has; the result is a subsequence of the list |
| `TaskList.BucketSnoc` | src/components/Problem-1.jsx:20-22 | one more task extends only its own group, at the end |
| `TaskList.GroupByStatus` | src/components/Problem-1.jsx:13-25 | the one-pass push into three arrays, then concatenation, equals the reference grouping |
| `TaskList.FinalData` | src/components/Problem-1.jsx:7-26 | the view is the grouping of the filtered list: a permutation of it, every active task before every completed task before every other task, each group in list order |
| `TaskList.BucketCons` | src/components/Problem-1.jsx:17-23 | one more task in front adds it to its own group only |
| `TaskList.BucketsPartition` | src/components/Problem-1.jsx:17-23 | every task lands in exactly one of the three groups |
| `TaskList.GroupedIsPermutation` | src/components/Problem-1.jsx:17-25 | the grouping has the same multiset of tasks as its input, so the same length |
| `TaskList.GroupedIsOrdered` | src/components/Problem-1.jsx:13-25 | at positions i < j, the group rank at i is at most the rank at j |
| `TaskList.BucketOfBucket` | src/components/Problem-1.jsx:17-23 | taking a group of a group keeps it whole, or empties it for a different group |
| `TaskList.GroupedIsStable` | src/components/Problem-1.jsx:17-23 | the tasks of each group appear in the grouping in their list order |
| `TaskList.AllShowsEverything` | src/components/Problem-1.jsx:8-10 | with `all` the view is a permutation of the whole list |
| `TaskList.SelectionShowsMatching` | src/components/Problem-1.jsx:11 | with another selection, a task is in the view iff it is in the list with that lower-cased status; nothing filtered is lost or duplicated |
| `TaskList.Submit` | src/components/Problem-1.jsx:37 | the new entry is appended at the end and earlier entries are unchanged |
| `TaskList.FilterAfterSubmit` | src/components/Problem-1.jsx:37 | after a submission the filter result is the old one, followed by the new entry when the selection admits it |
| `TaskList.GroupedSnoc` | src/components/Problem-1.jsx:17-25 | grouping a list with one task appended puts that task last in its group |
| `TaskList.SubmitShowsLastInGroup` | src/components/Problem-1.jsx:37 | after a submission the new entry is the last task of its group in the view when the selection admits it; every group is otherwise unchanged |
| `TaskList.GroupIgnoresCase` | src/components/Problem-1.jsx:18-22 | a task is active iff its status spells "active" in any mix of cases, completed iff it spells "completed"; any other status lands in the last group |
| `TaskList.GroupFourTasks` | src/components/Problem-1.jsx:17-25 | tasks grouped active, other, completed, active are shown as first, fourth, third, second |
| `Contacts.RemoveDuplicate` | src/components/Problem-2.jsx:249-252 | no two elements of the result are equal, and it holds exactly the contacts of its input |
| `Contacts.RemoveDuplicateKeepsFirstOccurrenceOrder` | src/components/Problem-2.jsx:250-251 | kept contacts appear in the order of their first occurrence in the input |
| `Contacts.RemoveDuplicateOfDistinct` | src/components/Problem-2.jsx:249-252 | a list without repeats is returned unchanged |
| `Contacts.RemoveDuplicateIdempotent` | src/components/Problem-2.jsx:249-252 | de-duplicating twice equals de-duplicating once |
| `Contacts.RemoveDuplicateOfAppend` | src/components/Problem-2.jsx:208 | the de-duplicated list before an append is a prefix of the one after it |
| `Contacts.RemoveDuplicateOfAppendSeen` | src/components/Problem-2.jsx:206-214 | appending contacts that are all present already leaves the de-duplicated list unchanged |
| `Contacts.EvenPositions` | src/components/Problem-2.jsx:68-72 | the even filter keeps n/2 rounded down of n contacts |
| `Contacts.EvenPositionsExact` | src/components/Problem-2.jsx:68-72 | the even filter keeps exactly the contacts at 1-based positions 2, 4, 6, ..., so n/2 rounded down of them |
| `Contacts.Step1` | src/components/Problem-2.jsx:68-73 | the first step of the memo: the even filter when the toggle is on, the input otherwise; characterised by `Contacts.ResultsSpec` |
| `Contacts.Results` | src/components/Problem-2.jsx:66-80 | the memo's result; characterised by `Contacts.ResultsSpec` and `Contacts.EvenResults` |
| `Contacts.ResultsSpec` | src/components/Problem-2.jsx:66-80 | the results are a subsequence of step 1; in the `us` view they are exactly the United States contacts of step 1, each with as many copies as step 1 has; in another view they are step 1; toggle off and not `us` gives the input |
| `Contacts.EvenResults` | src/components/Problem-2.jsx:68-79 | toggle on and not `us`: the results are the contacts at 1-based positions 2, 4, 6, ... |
| `Contacts.LastSegment` | src/components/Problem-2.jsx:197 | the result has no slash, is a suffix of the path, and is the whole path or follows a slash |
| `Contacts.ViewType` | src/components/Problem-2.jsx:197 | the view type has no slash and is no longer than the path; characterised by `Contacts.RouteViewTypes` |
| `Contacts.LastSegmentAfterSlash` | src/components/Problem-2.jsx:197 | a path ending in `/segment` with no slash in `segment` yields `segment` |
| `Contacts.RouteViewTypes` | src/components/Problem-2.jsx:197 | a route `<prefix>/<segment>` gives the lower-cased segment as view type, and the `us` view iff the segment spells "us" in either case |
| `ContactStore.IsCursor` | src/components/Problem-2.jsx:217 | the truthiness test of `nextPageUrl`: present and not empty |
| `ContactStore.ContactData.constructor` | src/components/Problem-2.jsx:194-196 | the hook starts with no contacts, not loading, and the first page as cursor |
| `ContactStore.ContactData.View` | src/components/Problem-2.jsx:214 | the exposed contacts have no repeats and hold exactly the accumulated contacts |
| `ContactStore.ContactData.Start` | src/components/Problem-2.jsx:199-200 | before the response, the indicator is raised iff the call uses it; nothing else changes |
| `ContactStore.ContactData.Finish` | src/components/Problem-2.jsx:203-208 | on the response: a loading call lowers the indicator; the cursor becomes the page's `next`; a reset replaces the contacts with the page and shows it de-duplicated; an append keeps the old contacts and the old view as prefixes |
| `ContactStore.ContactData.LoadData` | src/components/Problem-2.jsx:199-209 | a whole call: the indicator ends down for a loading call and is unchanged for a background call; the cursor and contacts are updated as in `Finish` |
| `ContactStore.ContactData.Mount` | src/components/Problem-2.jsx:211 | the mount load fetches the first page, appends, and raises the indicator |
| `ContactStore.ContactData.NextPage` | src/components/Problem-2.jsx:216-218 | a request is issued iff the cursor is present and not empty; it fetches the cursor in the background and appends; no state changes |
| `ContactStore.ContactData.SetQuery` | src/components/Problem-2.jsx:219-221 | it fetches the first page with `&search=<query>`, replacing and using the indicator, which goes up |
| `ContactStore.ContactData.HandleScroll` | src/components/Problem-2.jsx:51-59 | a request is issued iff the dialog exists, nothing is loading, `scrollTop + clientHeight == scrollHeight` and the cursor is truthy; no state changes |
| `ContactStore.ScrollTwiceBeforeResponse` | src/components/Problem-2.jsx:216-218 | two bottom-of-scroll events before a background page arrives both request the same page |
| `ContactStore.SearchDiscardsEarlierPages` | src/components/Problem-2.jsx:219-221 | a scroll during a search requests nothing, and the search page replaces every earlier contact |
| `ContactStore.MountRacesEmptySearch` | src/components/Problem-2.jsx:211-240 | when the empty search started on mount answers before the mount load, the mount page is appended after it; the view hides contacts repeated from the search page; the indicator ends down |

## Left out

- The `fetch` and `res.json()` calls (Problem-2.jsx:201-202) are not modelled. A request is returned to the caller, and the decoded `{results, next}` comes back as a `Page`. The code has no error handling, so the model has no failure path.
- Responses may arrive in any order, and each one is applied when it arrives. The model has no cancellation of stale responses, because the code has none.
- `useSearch` (Problem-2.jsx:226-247) is left out. It is timer and effect plumbing built from `setTimeout`/`clearTimeout`, so debouncing is not modelled. Its second effect (Problem-2.jsx:238-240) also runs on mount and calls `setQuery('')`, so a session starts with the mount load and an empty search both in flight; `MountRacesEmptySearch` models one order of their responses.
- `useEffectOnce` (src/hooks/useEffectOnce.js) is left out. It is a one-shot React layout effect. `ContactData.Mount` models the single call it makes.
- React effect scheduling is left out. This includes the effect that re-runs `handleScroll` (Problem-2.jsx:61-64). Its dependency `api.data` is a fresh array from `removeDuplicate` on every render, so it runs after every render, not only when the contacts change; a caller can call `HandleScroll` at any point. State updates are applied in order, one at a time.
- JSX rendering, `Dialog`, `NestedContact`, routing and the modal are left out. `document.getElementById` becomes the `hasTarget` flag of `HandleScroll`.
- Strings.ToLower: maps only the ASCII letters A-Z. JavaScript's full Unicode case mapping is not modelled.
- `HandleScroll` takes the scroll measurements as integers. Browsers may report fractional values.
- A contact is `Contact(id, phone, countryName)`, and structural equality is datatype equality. The other fields of a contact, and the key order of `JSON.stringify`, are not modelled.
- The fallback `api.data ?? []` (Problem-2.jsx:67) never applies in the model, because `View` always returns a list.
- The search term is appended to the URL without encoding, as in the code.

## Findings

None.
