# Diary client: the list and session logic, in Dafny

This project models the client-side logic of a personal diary web app. Most
of that app is markup over a REST API; what is modelled is the state and list
handling inside its pages:

- **The dashboard's entry list** (`dashboard.dfy`, class `Dashboard.EntryList`).
  It covers the five filter fields and the query they derive for `GET /entries`.
  Every successful fetch is re-ordered favourites-first. A pin toggle patches
  the list optimistically and refetches if the request fails. Delete removes by
  id after the user confirms. "Clear filters" resets the filter inputs in one step.
  Each card caps its images and tags at three, with a "+N" overflow.
- **The stable comparator sort** (`stable_sort.dfy`). Both the favourites-first
  order and the dominant-mood card sort an array in place with a comparator of
  the form `(a, b) => key(b) - key(a)`. ECMA-262 has required
  `Array.prototype.sort` to be stable since its 2019 edition, so the result is
  fixed: elements in non-increasing key order, with equal keys in input order.
  `StableSort.SortDesc` defines that result. `StableSort.SortInPlace` computes
  it on an array with an insertion sort.
- **The authentication store** (`auth_store.dfy`). It holds `user`, `token` and
  `isLoading`, persisted in the browser's key-value storage, which is modelled
  as a `map<string, string>`. The operations are `login`, `logout` and
  `checkAuth`. The value-level functions `AfterLogin`, `AfterLogout` and
  `AfterCheckAuth` state each transition, and lemmas relate the transitions to
  each other.
- **The calendar page** (`calendar.dfy`). It covers the entries on a day, the
  mood tile of a day, the route a day click leads to, and the "weeks active"
  figure.
- **The analytics page** (`analytics.dfy`). It covers the fetched mood
  distribution, the dominant-mood card and the pie chart's colour cycling.

Network requests are not performed. Each request's outcome is a parameter:
`Wrappers.Outcome` is success with a payload or failure, and `Wrappers.Status`
is success or failure for requests without a payload. Some inputs depend on the
clock, the time zone or the user, so they are parameters too:
- the bounds of the current month;
- the `yyyy-MM-dd` key of a timestamp;
- the delete confirmation.

`JSON.stringify` and `JSON.parse` are function parameters. `parse` returns
`None` where `JSON.parse` would throw.

Three behaviours of the code are kept as written:
- `fetchEntries` (`src/app/dashboard/page.tsx:40-67`) has no guard against
  responses arriving out of order. None is modelled: each completed fetch
  sets the list.
- An unset filter is the empty string, and its key is left out of the query
  (`src/app/dashboard/page.tsx:47-49`).
- Delete removes every entry with the given id
  (`src/app/dashboard/page.tsx:79`). A pin toggle sets the flag on every
  entry with the clicked card's id, to the negation of the clicked card's
  own flag (`src/app/dashboard/page.tsx:92`).

## Model

| member | source | states |
|---|---|---|
| `Dashboard.QueryParams` | src/app/dashboard/page.tsx:43-55 | `sort` is always present and equals the sort order. `search`, `mood` and `tag` are present exactly when their filter is non-empty, with that value. `startDate` and `endDate` are present exactly when "this month" is on, with the month bounds. No other key appears. |
| `Dashboard.QueryParamsRoundTrip` | src/app/dashboard/page.tsx:43-55 | The query loses no filter: reading the filters back from it gives the filters it was built from. |
| `Dashboard.ClearedQueryIsSortOnly` | src/app/dashboard/page.tsx:105-111 | The default filters give a query with only `sort=newest`. The query reaches it once the debounce settles after a reset. |
| `Dashboard.ResetQuery` | src/app/dashboard/page.tsx:105-111 | Right after a reset, while the debounced search still holds the earlier text, the query is `sort=newest` plus that text as `search` when it is non-empty. |
| `Dashboard.FavoritesFirst` | src/app/dashboard/page.tsx:59-61 | The reference order for the list: it keeps the length, and position k holds a pinned entry exactly when k is below the number of pinned entries. Its lemmas below show it is what the sort computes, a permutation that keeps each group's order, and the only such order. |
| `Dashboard.FavoriteSortIsFavoritesFirst` | src/app/dashboard/page.tsx:60 | The comparator sort on `Number(isFavorite)` gives exactly the pinned entries followed by the unpinned ones. |
| `Dashboard.InsertPinned` | src/app/dashboard/page.tsx:60 | The sort places a pinned element after all pinned elements and before all unpinned ones. |
| `Dashboard.FavoritesFirstPinnedFirst` | src/app/dashboard/page.tsx:59-61 | After the reorder, no unpinned entry precedes a pinned one. |
| `Dashboard.FavoritesFirstKeepsGroupOrder` | src/app/dashboard/page.tsx:59-61 | Pinned entries keep their fetched relative order, and so do unpinned ones. |
| `Dashboard.FavoritesFirstPermutation` | src/app/dashboard/page.tsx:59-61 | The reordered list is a permutation of the fetched list. |
| `Dashboard.PinnedFirstSplits` | src/app/dashboard/page.tsx:60 | A list with no unpinned entry before a pinned one equals its pinned entries followed by its unpinned entries. |
| `Dashboard.FavoritesFirstUnique` | src/app/dashboard/page.tsx:60 | Any order that puts pinned entries first and keeps each group's order is the favourites-first list. So any stable sort on the flag yields it. |
| `Dashboard.MarkFavorite` | src/app/dashboard/page.tsx:90-92 | The length is unchanged. Each entry with the target id gets the new flag and keeps every other field. Every other entry is unchanged. |
| `Dashboard.MarkFavoriteUndo` | src/app/dashboard/page.tsx:90-92 | Setting the former flag back restores the list, provided all entries with that id had the same flag. |
| `Dashboard.RemoveById` | src/app/dashboard/page.tsx:79 | The result is a subsequence of the list (survivors in their original order). It holds no entry with that id, and every other entry as many times as before. |
| `Seqs.Filter` | src/app/dashboard/page.tsx:79 | `Array.prototype.filter`: the result is no longer than the input, and every element of it satisfies the predicate. Its lemmas below pin the result down completely. |
| `Seqs.FilterMultiset` | src/app/dashboard/page.tsx:79 | Filtering keeps every element that satisfies the predicate as many times as it occurs, and no other element. |
| `Seqs.FilterSubsequence` | src/app/dashboard/page.tsx:79 | The filtered elements keep their relative order from the input. |
| `Seqs.PreviewOf` | src/app/dashboard/page.tsx:234-244 | `slice(0, limit)` with the hidden count: it shows the first min(n, limit) items, shown plus hidden equals n, and the hidden count is positive exactly when n > limit. |
| `Dashboard.ImageStripOf` | src/app/dashboard/page.tsx:232-246 | There is no strip for an entry without images. Otherwise the strip shows the first min(3, n) images, and the "+N" tile appears exactly when n > 3. Shown plus hidden equals n, and the tile opens the fourth image. |
| `Dashboard.TagChips` | src/app/dashboard/page.tsx:258-268 | The card shows the first min(3, n) tags, and "+N" appears exactly when n > 3, with shown plus N equal to n. |
| `Dashboard.EntryList.constructor` | src/app/dashboard/page.tsx:26-35 | The list starts empty and loading, with every filter at its default and sort `newest`. |
| `Dashboard.EntryList.FetchEntries` | src/app/dashboard/page.tsx:40-67 | It sends the derived query. On success the list becomes the response ordered favourites-first. On failure the list is unchanged. `loading` ends false either way, and the filters are untouched. |
| `Dashboard.EntryList.HandleDelete` | src/app/dashboard/page.tsx:73-84 | If the user declines, no request is sent and nothing changes. On success the entries with that id are removed. On failure the list is unchanged. |
| `Dashboard.EntryList.HandleTogglePin` | src/app/dashboard/page.tsx:86-103 | The flag sent is the negation of the clicked card's flag. The list becomes the patched list ordered favourites-first. If the patch fails, a refetch runs and sends the query derived from the filters in force: a successful refetch replaces the list, a failed one leaves the optimistic list in place. It is never reverted. When the patch succeeds, no query is sent. |
| `Dashboard.EntryList.ClearFilters` | src/app/dashboard/page.tsx:105-111 | Search, mood and tag become `""`, "this month" becomes off and sort becomes `newest`. The list, `loading` and the debounced search are untouched, so the query becomes the default filters with the earlier debounced search still in place. |
| `Dashboard.EntryList.SetSearch` | src/app/dashboard/page.tsx:130 | Typing changes only the search box. The query is unchanged until the debounce settles. |
| `Dashboard.EntryList.DebounceSettles` | src/app/dashboard/page.tsx:31 | The query picks up the search text, and nothing else changes. |
| `Dashboard.EntryList.SelectMood` | src/app/dashboard/page.tsx:152 | Only the mood filter changes. |
| `Dashboard.EntryList.SelectTag` | src/app/dashboard/page.tsx:261 | Only the tag filter changes. |
| `Dashboard.EntryList.ToggleThisMonth` | src/app/dashboard/page.tsx:162 | Only the "this month" flag changes, and it flips. |
| `Dashboard.EntryList.SetSortOrder` | src/app/dashboard/page.tsx:171 | Only the sort order changes. |
| `StableSort.Insert` | src/app/dashboard/page.tsx:60 | One step of the stable sort adds exactly one element. Its lemmas `InsertMultiset`, `InsertSorted` and `InsertStable` show that it adds `x` to the multiset, keeps keys non-increasing, and puts `x` after every element of its own key. |
| `StableSort.SortDesc` | src/app/dashboard/page.tsx:60 | The result of `sort` with a `key(b) - key(a)` comparator. It keeps the length, and the lemmas below show it is a permutation, ordered by non-increasing key, stable, and headed by the earliest element of maximal key. |
| `StableSort.SortInPlace` | src/app/dashboard/page.tsx:94 | The array ends up holding the stable descending-key sort of its former contents. |
| `StableSort.SortDescPermutation` | src/app/dashboard/analytics/page.tsx:74 | Sorting neither loses nor duplicates an element. |
| `StableSort.SortDescSorted` | src/app/dashboard/analytics/page.tsx:74 | The sorted sequence has non-increasing keys. |
| `StableSort.SortDescStable` | src/app/dashboard/page.tsx:60 | For every key, the elements with that key keep their input order. |
| `StableSort.FirstMaxIndex` | src/app/dashboard/analytics/page.tsx:74 | It returns the index of an element of maximal key with no earlier element of that key. |
| `StableSort.SortDescHead` | src/app/dashboard/analytics/page.tsx:74 | The first element after sorting is the earliest element of maximal key. |
| `AuthStore.GetItem` | src/utils/store.ts:35 | `localStorage.getItem`: the stored string when the key is present, otherwise `null`. |
| `AuthStore.Truthy` | src/utils/store.ts:36 | The JavaScript truthiness tested by `if (!token)` and `if (savedUser)`: `null` and `""` are false, and every other stored string is true. |
| `AuthStore.Initial` | src/utils/store.ts:18-21 | The created store: no user, loading, storage as given. A token is present exactly when running in a browser with a stored token, and it is the stored value. |
| `AuthStore.AfterLogin` | src/utils/store.ts:22-26 | After `login`: user and token set, loading false. Storage reads back the token and the serialised user, and every other key is unchanged. |
| `AuthStore.AfterLogout` | src/utils/store.ts:27-31 | After `logout`: user and token null, loading false. Storage holds neither key, and every other key is unchanged. |
| `AuthStore.AfterCheckAuth` | src/utils/store.ts:32-59 | Loading always ends false. With no non-empty stored token, the fields are cleared and storage is kept. With a token but no saved user, only loading changes. With a token and a parseable saved user, the fields come from storage. If parsing fails, the fields are cleared and only the token is removed from storage. |
| `AuthStore.LocalStore.SetItem` | src/utils/store.ts:23-24 | `localStorage.setItem`: the key maps to the value, and every other key is kept. |
| `AuthStore.LocalStore.RemoveItem` | src/utils/store.ts:28-29 | `localStorage.removeItem`: the key is gone, and every other key is kept. |
| `AuthStore.Store.constructor` | src/utils/store.ts:18-21 | The store starts with no user and loading. In a browser the token is read from storage, otherwise it is null. |
| `AuthStore.Store.Login` | src/utils/store.ts:22-26 | Afterwards the token is `t`, the user is `u` and loading is false. Storage has `token` set to `t` and `user` set to the serialised `u`. |
| `AuthStore.Store.Logout` | src/utils/store.ts:27-31 | Afterwards the token and user are null and loading is false. Storage loses `token` and `user`, and every other key is unchanged. |
| `AuthStore.Store.CheckAuth` | src/utils/store.ts:32-59 | Loading always ends false. With no non-empty stored token, the fields are cleared and storage is unchanged. With a token and a parseable saved user, both fields are set from storage. With a token but no saved user, only loading changes. If parsing fails, only the stored token is removed (the saved user stays) and the fields are cleared. |
| `AuthStore.CheckAuthSettles` | src/utils/store.ts:32-59 | Every completed `checkAuth` path ends with loading false. Its only possible storage change is removing `token`. |
| `AuthStore.LoginThenCheckAuth` | src/utils/store.ts:22-53 | If the token is non-empty and the user's serialisation parses back to the same user, a session written by `login` is restored unchanged by `checkAuth`. |
| `AuthStore.LoginEmptyTokenThenCheckAuth` | src/utils/store.ts:22-38 | A `login` with an empty token does not survive `checkAuth`: `if (!token)` clears the user and the token, while storage keeps what `login` wrote. |
| `AuthStore.LogoutThenCheckAuth` | src/utils/store.ts:27-39 | After `logout`, `checkAuth` finds no session and changes nothing. |
| `AuthStore.CheckAuthIdempotent` | src/utils/store.ts:32-59 | Running `checkAuth` a second time changes nothing. |
| `Calendar.EntriesForDate` | src/app/dashboard/calendar/page.tsx:39-45 | The result is a subsequence of the entries (original order). It holds every entry whose day key is the day's key, as often as it occurs, and no other entry. |
| `Calendar.EditRoute` | src/app/dashboard/calendar/page.tsx:69 | `/dashboard/${id}/edit`: the route has that prefix and suffix, and the entry id can be read back from between them. |
| `Calendar.RangeRoute` | src/app/dashboard/calendar/page.tsx:72 | The dashboard route whose `startDate` and `endDate` are both the clicked day's ISO string. |
| `Calendar.OnDateClick` | src/app/dashboard/calendar/page.tsx:66-76 | A day with no entries routes to `/dashboard/new`. A day with exactly one entry routes to that entry's edit page. A day with two or more routes to the dashboard with `startDate` = `endDate` = the day. |
| `Calendar.Moods` | src/app/dashboard/calendar/page.tsx:53 | `.map(entry => entry.mood)`: same length, and position k holds the mood of entry k. |
| `Calendar.TileContent` | src/app/dashboard/calendar/page.tsx:47-64 | A tile has content exactly in month view on a day with entries. It shows the moods of the first min(3, n) entries of that day, and the overflow dot exactly when n > 3. |
| `Calendar.Streak` | src/app/dashboard/calendar/page.tsx:112 | The figure is 0 exactly when there are no entries. Otherwise it is the least `w` with `n <= 7w`, which is `ceil(n/7)`. It never exceeds `n`. |
| `Calendar.AfterFetch` | src/app/dashboard/calendar/page.tsx:25-37 | Loading ends. On failure the list stays empty. On success it is the response. |
| `Analytics.DominantMoodOf` | src/app/dashboard/analytics/page.tsx:74 | An empty distribution gives "N/A". Otherwise the result is the name of the earliest mood of maximal count. It is "N/A" exactly when the distribution is empty, unless a mood is itself named "N/A". |
| `Analytics.CellColor` | src/app/dashboard/analytics/page.tsx:98-100 | Every slice's colour is one of the eight palette colours. |
| `Analytics.CellColorPeriodic` | src/app/dashboard/analytics/page.tsx:99 | Colours repeat every eight slices. |
| `Analytics.CellColorsDistinct` | src/app/dashboard/analytics/page.tsx:33 | Any eight consecutive slices have eight different colours. |
| `Analytics.AnalyticsPage.constructor` | src/app/dashboard/analytics/page.tsx:14-16 | The page starts with an empty distribution, a total of 0 and loading. |
| `Analytics.AnalyticsPage.FetchStats` | src/app/dashboard/analytics/page.tsx:18-31 | Loading ends. On success the distribution and total are the response's. On failure both keep their values, which are `[]` and 0 after construction. |
| `Analytics.AnalyticsPage.DominantMood` | src/app/dashboard/analytics/page.tsx:74 | `moodData` is sorted in place: it becomes a permutation of its former contents in non-increasing count order, stably. The name returned is the dominant mood of the former order. |

## Left out

- HTTP calls (`api.get`, `api.patch`, `api.delete`, `api.post`) are network I/O. Each call's outcome is a parameter instead.
- The React scheduling is not modelled: effects re-running when a filter changes, render timing, and handlers capturing a stale `entries`. Each method runs to completion on the current state.
- `Dashboard.EntryList.FetchEntries`: `loading` is true only while the request is in flight. The model shows only the state after completion.
- `Dashboard.EntryList.HandleTogglePin`: the source starts the refetch without awaiting it. The model completes it inside the call with a supplied outcome. How it interleaves with other handlers is not captured.
- `Dashboard.EntryList.ClearFilters`: the number of fetches a reset triggers depends on React effects and batching, which are not modelled. When the search and at least one other filter are set, a reset costs two fetches even with batching. The first still sends the earlier search, because `debouncedSearch` keeps it for 500 ms. A sort-only fetch follows when the debounce settles. When only the search is set, the reset changes no fetch dependency. The one fetch is then the sort-only one after the debounce. The model states the query at each of these points, through the `ClearFilters` contract, `Dashboard.ResetQuery` and `Dashboard.ClearedQueryIsSortOnly`.
- The 500 ms debounce of the search box is timing inside a library. `Dashboard.EntryList.DebounceSettles` stands for the quiet period ending.
- `date-fns` (`startOfMonth`, `endOfMonth`, `format`) and `toISOString` depend on the clock and time zone. Month bounds and day keys are parameters.
- `confirm`, `alert`, `console.error`, `router.push`, the JSX markup and the Recharts rendering are UI. The confirmation is a boolean input, and routes are returned strings.
- `StableSort.SortInPlace`: it does not use the engine's own sorting algorithm. Only its result is modelled, which the stability requirement makes unique.
- `AuthStore.Store.CheckAuth`: these cases are not modelled: `JSON.parse` returning a value that is not a user object (for example `"null"`), and `localStorage.getItem` throwing. Neither the real `localStorage` nor JSON is modelled.
- `Calendar.Streak`: `entries.length / 7` is a floating-point division in the source. It is modelled exactly, which agrees with the source for every list shorter than 2^50.
- `Analytics.MoodStat`: counts are integers. Non-integer or `NaN` counts from the server are not modelled.
- The login and register pages are not part of this model: their validation is delegated to form libraries, and the rest is a POST. So are the dashboard layout, the image modal, the root layout and the entry editor page.
