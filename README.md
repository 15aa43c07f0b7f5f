# YASD dashboard list logic in Dafny

This project models the list logic inside three pages of the YASD dashboard. YASD is a browser
dashboard for a local proxy daemon. Rendering, networking and storage stay outside the model.

- **Request feed** (`requests.dfy`, module `Requests`). Each poll of the proxy's recent requests
  is merged into the page's list of at most 150 entries. The page keeps at most `LIST_ITEMS_MAX`
  (150) records of the poll and pops them off the end, so they are merged last to first. A
  record whose id is already listed overwrites that entry's other fields where the entry stands.
  A new record goes to the front when its id exceeds the head's id, and to the back otherwise.
  The list is then cut to 150 entries.
  - `Merge` specifies one poll as a function.
  - `MergeRequests` is the page's loop, proved equal to `Merge`.
  - The class `RequestsPage` holds the list and keeps three facts across every poll: at most
    150 entries, distinct ids, and the largest id at the head.
- **Profiles** (`landing.dfy`, module `Landing`). These are pure functions over the page state.
  The state holds the profile list, the two local-storage entries it writes, the form inputs,
  the error flag, and whether the page has gone to `/home`. The model covers:
  - `addProfile`, `deleteProfile` and `selectProfile`;
  - the submit guard;
  - the derivation of `platform`, `platformVersion` and `platformBuild` from the connection
    check's response headers.
- **Connector traffic** (`traffic.dfy`, module `Traffic`). `getSortedTraffic` pushes one
  `{name, ...stats}` entry per connector into an array. It then sorts that array in place by
  `in + out`, largest first. The model does the same, with an insertion sort as the in-place
  sort.

Three facts about the request feed's code shape the model:

- The feed is not kept in descending id order. Only the head is guaranteed to hold the largest
  id. A new record older than the head but newer than the tail is appended behind the tail.
  `Requests.ExampleAppendBehindTail` shows such a case.
- The code has no path that rejects malformed records. Record ids are numbers by their type, so
  the model has no error case for the merge.
- Merging an empty poll is a no-op only for a list within capacity. Every list the page holds is
  within capacity (`RequestsPage.Valid`).

## Model

| member | source | states |
|---|---|---|
| `Requests.FindIndex` | src/pages/Requests/index.tsx:41 | the first index whose entry has the id, or -1 exactly when no entry has it |
| `Requests.Assign` | src/pages/Requests/index.tsx:44 | the target keeps its id; every non-id field of the record overwrites the target's, and the target's other fields stay |
| `Requests.Pending` | src/pages/Requests/index.tsx:37 | an absent poll gives no records; otherwise the first min(150, n) records of the poll, in order |
| `Requests.Truncate` | src/pages/Requests/index.tsx:54 | a prefix of the list of length min(150, n); a list within capacity is unchanged |
| `Requests.Step` | src/pages/Requests/index.tsx:40-51 | the result is as long as the list or one longer; the update and insert cases are stated by `StepUpdatesInPlace` and `StepInsertsNew` |
| `Requests.ApplyPending` | src/pages/Requests/index.tsx:39-52 | draining the pending records grows the list by at most one entry per record and never shrinks it |
| `Requests.Merge` | src/pages/Requests/index.tsx:35-56 | the merged list never exceeds 150 entries, and it is either full or at least as long as the old list |
| `Requests.MergeRequests` | src/pages/Requests/index.tsx:35-56 | the loop's result equals `Merge`; it has at most 150 entries, and it keeps distinct ids and a maximal head when the old list had them |
| `Requests.StepUpdatesInPlace` | src/pages/Requests/index.tsx:41-44 | a record whose id is present updates the first entry with that id at the same index, same length and same id, fields overwritten, every other entry untouched |
| `Requests.StepInsertsNew` | src/pages/Requests/index.tsx:45-50 | an absent record is prepended when the list is non-empty and its id exceeds the head's, appended otherwise; it ends up first exactly when the list was empty or its id exceeds the head's |
| `Requests.StepIds` | src/pages/Requests/index.tsx:41-50 | one merge step adds the record's id to the set of ids and loses none |
| `Requests.StepShift` | src/pages/Requests/index.tsx:43-50 | one merge step leaves the old entries' ids as one contiguous block (`IdBlockAt`), in order, shifted right by at most one place |
| `Requests.StepPreservesUniqueIds` | src/pages/Requests/index.tsx:41-50 | a step keeps ids pairwise distinct, because it inserts only absent ids |
| `Requests.StepPreservesHeadMax` | src/pages/Requests/index.tsx:46-50 | a step keeps the largest id at the head |
| `Requests.ApplyPendingIsReverseOrder` | src/pages/Requests/index.tsx:39-40 | popping the pending records merges them in reverse of the poll's order |
| `Requests.MergeIgnoresOverflow` | src/pages/Requests/index.tsx:37 | records after the first 150 of a poll have no effect on the result |
| `Requests.MergeEmptyIsNoOp` | src/pages/Requests/index.tsx:36-54 | an absent or empty poll leaves a list of at most 150 entries unchanged |
| `Requests.ApplyPendingIds` | src/pages/Requests/index.tsx:39-52 | before the cut, the ids of the result are exactly the old ids plus the merged records' ids |
| `Requests.ApplyPendingPreservesUniqueIds` | src/pages/Requests/index.tsx:39-52 | merging a whole batch keeps ids pairwise distinct |
| `Requests.ApplyPendingPreservesHeadMax` | src/pages/Requests/index.tsx:39-52 | merging a whole batch keeps the largest id at the head |
| `Requests.UniqueIdsCount` | src/pages/Requests/index.tsx:41-50 | a list with distinct ids has as many entries as ids |
| `Requests.ApplyPendingCount` | src/pages/Requests/index.tsx:41-50 | before the cut, the result has one entry per distinct id of the old list and the batch, so repeated ids in a poll become updates |
| `Requests.ApplyPendingKeepsOrder` | src/pages/Requests/index.tsx:36-52 | the old entries' ids form one contiguous block of the result, in their old order, behind at most one front insertion per pending record |
| `Requests.MergeBounded` | src/pages/Requests/index.tsx:20-54 | the merged list never has more than 150 entries |
| `Requests.MergePreservesUniqueIds` | src/pages/Requests/index.tsx:35-56 | a merge keeps ids pairwise distinct |
| `Requests.MergePreservesHeadMax` | src/pages/Requests/index.tsx:46-54 | a merge, including the cut, keeps the largest id at the head |
| `Requests.MergeKeepsOrder` | src/pages/Requests/index.tsx:36-54 | after a merge the old entries keep their relative order from an offset no larger than the number of merged poll records; either every old entry survives or the list is full at 150 |
| `Requests.ExampleFirstPoll` | src/pages/Requests/index.tsx:39-50 | an empty list merged with the poll [1, 2] becomes [2, 1] |
| `Requests.ExampleAppendBehindTail` | src/pages/Requests/index.tsx:46-50 | [5, 1] merged with [3] becomes [5, 1, 3]: the list is not sorted in general |
| `Requests.RequestsPage.constructor` | src/pages/Requests/index.tsx:33 | the page starts with an empty list, which satisfies the invariant |
| `Requests.RequestsPage.OnPoll` | src/pages/Requests/index.tsx:35-56 | every poll replaces the list with `Merge` of the old list and keeps the invariant: capacity, distinct ids, maximal head |
| `Landing.AddProfile` | src/pages/Landing/index.tsx:37-48 | the returned profile is the configuration under the new id; the list becomes that profile followed by the old list, one longer; storage holds the new list and the new id as last used |
| `Landing.Without` | src/pages/Landing/index.tsx:66 | no profile with the id remains; every other profile keeps its number of occurrences; the result is a subsequence of the input |
| `Landing.DeleteProfile` | src/pages/Landing/index.tsx:64-72 | the list and its stored copy become the filtered list; last used, form and flags stay |
| `Landing.WithoutIsNoOpIffAbsent` | src/pages/Landing/index.tsx:66 | deleting changes nothing exactly when no profile has the id |
| `Landing.WithoutAbsent` | src/pages/Landing/index.tsx:66 | deleting an unknown id returns the list unchanged |
| `Landing.FindProfile` | src/pages/Landing/index.tsx:53 | finds a profile exactly when one has the id; the profile found is in the list, has the id, and is the first profile with that id |
| `Landing.SelectProfile` | src/pages/Landing/index.tsx:50-62 | a known id becomes the last used profile and the page goes home; an unknown id changes nothing |
| `Landing.IncludesIffOccurs` | src/pages/Landing/index.tsx:107 | the left-to-right `includes` search succeeds exactly when the text occurs at some index |
| `Landing.PlatformOf` | src/pages/Landing/index.tsx:107-109 | 'macos' exactly when the `x-system` header is present and contains "macOS"; 'ios' otherwise, including when the header is absent |
| `Landing.HeaderOrEmpty` | src/pages/Landing/index.tsx:110-111 | the header's value when present, "" when absent |
| `Landing.ConfigOf` | src/pages/Landing/index.tsx:102-112 | name, host and key come from the form, platform and the version and build strings from the headers |
| `Landing.CanSubmit` | src/pages/Landing/index.tsx:84 | no contract; the submit guard (with `Given` for `!!value`) that `OnSubmit` and `ResetFields` are stated against |
| `Landing.ResetFields` | src/pages/Landing/index.tsx:74-79 | all four inputs become the empty string, so the form cannot be submitted again until they are filled in |
| `Landing.OnSubmit` | src/pages/Landing/index.tsx:81-123 | with any of name, host, port or key undefined or empty nothing changes; a failed check only sets the error flag |
| `Landing.AddProfileKeepsIdsUnique` | src/pages/Landing/index.tsx:37-42 | adding under an unused id keeps profile ids distinct |
| `Landing.DeleteUndoesAdd` | src/pages/Landing/index.tsx:37-72 | deleting a freshly added profile restores the previous list |
| `Landing.SelectAfterAdd` | src/pages/Landing/index.tsx:102-116 | selecting the profile just added always succeeds and only navigates home |
| `Landing.SubmitSucceeds` | src/pages/Landing/index.tsx:99-117 | a successful submission puts the new profile first, stores the list and the new id as last used, clears the form, clears the error flag and goes home |
| `Traffic.Total` | src/pages/Traffic/index.tsx:53 | no contract; the sort key `in + out` that the busiest-first order is stated over |
| `Traffic.InsertLeft` | src/pages/Traffic/index.tsx:52-54 | one insertion step grows the busiest-first prefix by one, permutes the array and leaves the rest as it was |
| `Traffic.SortBusiestFirst` | src/pages/Traffic/index.tsx:52-54 | the array ends with totals non-increasing and is a permutation of what it held |
| `Traffic.GetSortedTraffic` | src/pages/Traffic/index.tsx:36-55 | empty when no statistics are loaded; otherwise a permutation of one entry per connector, each under its own name with its own statistics, names distinct, totals non-increasing |
| `Traffic.EntriesPermutation` | src/pages/Traffic/index.tsx:45-50 | a sequence with the multiset of the connector entries has every connector exactly once, under its own name, with no name twice |

## Left out

- Rendering, styles, list sizing, modals and page titles are UI and are not modelled.
- Polling, refresh intervals and the fetcher are left out. The poll result, the traffic data and the connection check's reply are parameters.
- The connection check is an HTTP request. Only its outcome is modelled: response headers, or `None` when it fails.
- Local storage is modelled as plain fields of the page state, written where the page writes them. Loading stored profiles on mount (src/pages/Landing/index.tsx:125-131) is not modelled.
- `uuid()` is a random source, so the new id is a parameter. Uniqueness lemmas require it to be unused.
- `Number(port)` is a parameter. JavaScript's string-to-number parsing and NaN are not modelled.
- `history.replace('/home')` becomes the flag `atHome`. The `isLoading` flag and the console logging are not modelled.
- OnSubmit: the reply is applied to the page as it was at submission. In the code, `addProfile` prepends to the list captured when the form was submitted, so a delete made while the check is pending is undone. That interleaving is not modelled.
- `selectProfile` reads the profiles through a promise. The model reads the current list synchronously.
- Form edits through the inputs are UI and are not modelled. Only the submit guard and `resetFields` are.
- `Object.assign` updates an object that the previous list still shares. The model replaces the entry in the new list instead, so that aliasing is not captured.
- Request field values are modelled as text, integer or boolean. The merge never reads them.
- Byte counts are `nat`. JavaScript number semantics (floating point, NaN) are not modelled.
- Other connector statistics are an uninterpreted map that is copied unchanged.
- The order of `Object.keys` is left open: names are taken from the key set in any order. This matters only for entries with equal totals.
- Sort stability is not modelled, because the comparator does not promise it.
- The interface list and time formatting on the Traffic page are UI and are not modelled.
