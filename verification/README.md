# Storage dashboard core, modelled in Dafny

This project models the logic behind a MinIO-style storage dashboard. At its
centre is an in-memory storage-accounting store. It holds an ordered list of
bucket records, a map from bucket name to that bucket's ordered objects, and
one global usage record `{total, used, free}`. It offers reads and four
mutating calls: create and delete a bucket, upload and delete an object.
Around the store sit the pieces of pure logic that the user interface runs:

- the create-bucket dialog's validation and submit/close handling;
- column sorting and the file-type icon of the object table;
- column sorting of the bucket table;
- the upload dialog's file and progress lists and its upload run;
- the main page's navigation state, content dispatch and storage figures.

Every operation is a pure function over immutable values. A store call
returns `Ok(store, value)` or `Err(error)`, and an error leaves the store as
it was. Values the source takes from the clock (`new Date()`) or the random
generator (the etag) are arguments of the calls. The two host services the
sort comparators use are a `Collation` argument:

- `localeCompare` becomes `text`;
- `new Date(s).getTime()` becomes `time`.

Sortedness is proved for any `localeCompare` that is a *total preorder*:
swapping the arguments flips the sign, and "not after" is transitive. Awaited
callbacks (`onCreateBucket`, `onUpload`) are oracles. The dialog handlers
take how each call settles (`Resolved` or `Rejected` with the thrown value)
and run as one atomic step.

Modules, one per source file, plus shared vocabulary:

| file | module | models |
|---|---|---|
| `common.dfy` | `Common` | `null` as `Option`, thrown values, `findIndex`, sums |
| `api.dfy` | `Api` | the store and its seven calls, the seed data |
| `api_props.dfy` | `ApiProps` | call sequences, the invariant of stores built from empty, round trips |
| `sorting.dfy` | `Sorting` | the header-click state machine, `[...xs].sort(cmp)` |
| `object_list.dfy` | `ObjectList` | object columns, comparator, icon rules |
| `bucket_list.dfy` | `BucketList` | bucket columns, comparator |
| `create_bucket_dialog.dfy` | `CreateBucketDialog` | `trim`, the name pattern, submit (also wired to the store) and close |
| `upload_object_dialog.dfy` | `UploadObjectDialog` | file/progress lists, upload run, close |
| `index_page.dfy` | `IndexPage` | navigation, `renderContent`, layout figures |

The seed store is inconsistent: `documentos` claims 152 objects but lists
three. So per-call facts are stated as deltas between the store before and
after the call. The "counters equal their objects" invariant is proved only
for stores built from the empty store.

`deleteBucket` does not touch the usage record, even when the bucket held
bytes. The model reproduces this, so `used` only bounds the bytes the bucket
records claim from above (`ApiProps.Consistent`).
`ApiProps.DeleteBucketKeepsUsedBytes` states exactly how much the gap grows.

## Model

| member | source | states |
|---|---|---|
| Common.CaughtMessage | src/components/dialogs/CreateBucketDialog.tsx:46-51 | A caught `Error` yields its own message; any other thrown value yields the fallback text. |
| Common.FindIndex | src/utils/api.ts:128-129 | The index found holds the predicate and no earlier element does; `None` (the source's -1) means no element holds it. |
| Api.BucketIndex | src/utils/api.ts:162 | Lookup by exact name finds nothing iff no bucket has that name; otherwise it finds the first bucket with that name. |
| Api.ObjectIndex | src/utils/api.ts:187-190 | Lookup by exact key finds nothing iff no object has that key; otherwise it finds the first object with that key. |
| Api.FetchObjects | src/utils/api.ts:89-92 | An unknown bucket reads as an empty list, not an error; a known bucket reads as its stored list. |
| Api.Settle | src/hooks/useBuckets.tsx:32-34 | The promise a dialog awaits resolves iff the store call succeeds. A failure rejects with an `Error` carrying the store's text (`Api.Message`), so the dialog's `catch` shows that text and never its own fallback. |
| Api.CreateBucket | src/utils/api.ts:99-123 | Fails with "already exists" iff the exact name is present. On success it appends one bucket `(name, now, 0, 0)` at the end and gives that name an empty object list. Other lists and usage are unchanged. |
| Api.DeleteBucket | src/utils/api.ts:125-140 | Fails with "not found" iff the name is absent. On success it removes exactly the first bucket with that name and its object list. Other lists are unchanged, and so is usage. |
| Api.UploadObject | src/utils/api.ts:142-178 | Fails with "not found" iff the bucket is absent. On success the new object is appended last, keyed by the file name. Only that bucket's record changes: count +1, size +`file.size`. `used` grows and `free` shrinks by `file.size`. |
| Api.DeleteObject | src/utils/api.ts:180-209 | Fails with "bucket not found" when the bucket is absent, and with "object not found" when no object has that key. On success it removes only the first object with that key. It moves that bucket's counters and `used`/`free` back by that object's size, and leaves other buckets' lists untouched. |
| ApiProps.StepPreservesConsistent | src/utils/api.ts:99-209 | Every call, failing or not, keeps unique names, one list per bucket, counters equal to the list's length and bytes, `used + free == total` and `used >=` claimed bytes. |
| ApiProps.RunFromEmptyConsistent | src/utils/api.ts:99-209 | Any sequence of calls from an empty store yields a store with that invariant. |
| ApiProps.FetchUsageAfterRun | src/utils/api.ts:94-97 | After any calls from an empty store, `fetchUsage` reports the starting capacity as `total`, with `used + free == total` and `used` at least the bytes the bucket records claim. |
| ApiProps.FetchUsageAfterSeedRun | src/utils/api.ts:75-97 | After any calls from the seed data, `fetchUsage` still reports the seed's 100 GiB total, with `used + free == total`. |
| ApiProps.StepKeepsBalance | src/utils/api.ts:166-168 | On any store, `used + free == total` survives every call, and `total` never changes. |
| ApiProps.UploadIgnoresCapacity | src/utils/api.ts:142-170 | An upload larger than the free space still succeeds and drives `free` below zero. |
| ApiProps.SeedNotConsistent | src/utils/api.ts:27-79 | The seed data's counters do not match its object lists. |
| ApiProps.CreateTwiceFails | src/utils/api.ts:102-105 | A second create of the same name fails with "already exists" and leaves the store unchanged. |
| ApiProps.CreateThenDeleteBucket | src/utils/api.ts:107-134 | Creating a fresh name and deleting it again restores the bucket list and usage, and drops only that name's list. |
| ApiProps.UploadThenDeleteRestores | src/utils/api.ts:149-203 | Uploading a key not yet in the bucket and then deleting that key gives back exactly the earlier store. |
| ApiProps.DuplicateKeyIsAppended | src/utils/api.ts:170-203 | Uploading an existing key grows the list instead of replacing the entry. A later delete of that key removes the older entry and keeps the new one last. |
| ApiProps.StepKeepsBucketOrder | src/utils/api.ts:84-87 | `fetchBuckets` lists buckets in insertion order: object calls keep it, a create appends, and a bucket delete drops one entry and keeps the rest in order. |
| ApiProps.DeleteBucketKeepsUsedBytes | src/utils/api.ts:125-140 | Deleting a bucket leaves usage as it was. The gap between `used` and the claimed bytes grows by exactly that bucket's bytes. |
| Sorting.Toggle | src/components/objects/ObjectList.tsx:57-64 | A click always sorts by the clicked column. On the current column it flips the order; on another column it sorts ascending. |
| Sorting.ToggleTwiceRestores | src/components/buckets/BucketList.tsx:46-53 | Two clicks on the current column give back the same sort state. |
| Sorting.ToggleNewColumn | src/components/buckets/BucketList.tsx:46-53 | A first click on a new column sorts it ascending, and a second click sorts it descending. |
| Sorting.InsertionSortSorted | src/components/objects/ObjectList.tsx:87-106 | With a comparator that is a total preorder, the sort's output has no element placed after one the comparator puts before it. |
| Sorting.SortCopy | src/components/objects/ObjectList.tsx:87 | The sorted copy is a permutation of the input, and it is sorted whenever the comparator is a total preorder. |
| ObjectList.SortedObjects | src/components/objects/ObjectList.tsx:84-107 | A missing list shows as no rows. Otherwise the rows are a permutation of the objects, sorted by the selected column and direction whenever `localeCompare` is a total preorder. |
| ObjectList.FirstClickFromInitialSort | src/components/objects/ObjectList.tsx:54-64 | The table opens sorted by key, ascending. So the first click on the key header sorts descending, and a first click on any other header sorts that column ascending. |
| ObjectList.Comparator | src/components/objects/ObjectList.tsx:87-106 | Every column's comparator, in either direction, is a total preorder once `localeCompare` is. |
| ObjectList.DescNegatesAsc | src/components/objects/ObjectList.tsx:105 | Descending compares as the negated ascending comparison, for every column. |
| ObjectList.SizeSortIsNumeric | src/components/objects/ObjectList.tsx:97-98 | Rows sorted by size are non-decreasing in size when ascending and non-increasing when descending. |
| ObjectList.FirstMatch | src/components/objects/ObjectList.tsx:66-82 | The icon is that of the first rule the type passes, and generic when it passes none. |
| ObjectList.WordListsAreDisjunctions | src/components/objects/ObjectList.tsx:73-78 | Each word-list rule holds exactly when the type contains one of its words. |
| ObjectList.GetFileIcon | src/components/objects/ObjectList.tsx:66-82 | The icon chain gives the same icon as the ordered rule table: image, video, audio, pdf, archive words, code words, generic. |
| BucketList.SortedBuckets | src/components/buckets/BucketList.tsx:55-78 | A missing list shows as no rows. Otherwise the rows are a permutation of the buckets, sorted by the selected column and direction whenever `localeCompare` is a total preorder. |
| BucketList.FirstClickFromInitialSort | src/components/buckets/BucketList.tsx:43-53 | The table opens sorted by name, ascending. So the first click on the name header sorts descending, and a first click on any other header sorts that column ascending. |
| BucketList.Comparator | src/components/buckets/BucketList.tsx:58-77 | Every column's comparator, in either direction, is a total preorder once `localeCompare` is. |
| BucketList.NumericColumnsAreMonotone | src/components/buckets/BucketList.tsx:68-76 | Sorted by object count or size, ascending rows never decrease in that column and descending rows never increase. |
| CreateBucketDialog.Trim | src/components/dialogs/CreateBucketDialog.tsx:29 | The trimmed name is a slice of the name with only whitespace cut off either end, and it neither starts nor ends with whitespace. |
| CreateBucketDialog.TrimEmptyIffBlank | src/components/dialogs/CreateBucketDialog.tsx:29-32 | A name trims to nothing exactly when every character is whitespace. |
| CreateBucketDialog.MatchesPattern | src/components/dialogs/CreateBucketDialog.tsx:34 | The untrimmed name matches the pattern iff it is at least 2 long, its first and last characters are in `[a-z0-9]`, and every character is in `[a-z0-9.-]`. |
| CreateBucketDialog.Edit | src/components/dialogs/CreateBucketDialog.tsx:82-85 | Typing replaces the name and clears the error. |
| CreateBucketDialog.HandleSubmit | src/components/dialogs/CreateBucketDialog.tsx:25-55 | A blank name gets the "cannot be empty" error, and a name the pattern rejects gets the pattern error. In both cases nothing is created. `onCreateBucket` is called, with the untrimmed name, iff the name is valid. On success the field is cleared and the dialog closes. On failure the caught message is shown and the dialog stays open. After a call the submitting flag is false. |
| CreateBucketDialog.SubmitToStore | src/components/dialogs/CreateBucketDialog.tsx:42-54 | A submit wired to the store's `createBucket`. A valid new name appends its bucket `(name, now, 0, 0)` with an empty list, keeps usage, and clears and closes the dialog. A valid name already taken leaves the store as it was and shows the store's "already exists" text. Any other name never reaches the store. |
| CreateBucketDialog.HandleClose | src/components/dialogs/CreateBucketDialog.tsx:57-63 | Nothing happens while a submit is in flight. Otherwise the name and error are cleared and `onClose` is called. |
| CreateBucketDialog.RejectedShapes | src/components/dialogs/CreateBucketDialog.tsx:34-37 | Single-character names, names with an upper-case letter, and names starting or ending with `.`, `-` or a space are all rejected. |
| CreateBucketDialog.ValidNameIsNotBlank | src/components/dialogs/CreateBucketDialog.tsx:29-37 | A name the pattern accepts is never blank, so the empty check only fires on names the pattern rejects too. |
| UploadObjectDialog.AddFiles | src/components/dialogs/UploadObjectDialog.tsx:29-43 | Picked files are appended after the listed ones, in order, with a progress of 0 each. A `null` pick changes nothing. |
| UploadObjectDialog.DropAt | src/components/dialogs/UploadObjectDialog.tsx:46-47 | Filtering out position `i` removes exactly that element and keeps the others in order. An index outside the list changes nothing. |
| UploadObjectDialog.RemoveFile | src/components/dialogs/UploadObjectDialog.tsx:45-48 | Row `i` leaves both lists, and every later row moves up by one. Alignment of the two lists is kept. |
| UploadObjectDialog.EditsKeepAligned | src/components/dialogs/UploadObjectDialog.tsx:104-128 | Picking or dropping files, removing a row and closing keep exactly one progress value per file. |
| UploadObjectDialog.HandleClose | src/components/dialogs/UploadObjectDialog.tsx:120-128 | Nothing happens while uploading. Otherwise files, progress, current index and error are cleared and `onClose` is called. |
| UploadObjectDialog.HandleUpload | src/components/dialogs/UploadObjectDialog.tsx:50-93 | With no files, the run only sets the "select at least one file" error. Otherwise files are handled in order, each stepping 0, 10, ..., 100 before its `onUpload`. If every call resolves, the lists are cleared and the dialog closes. The first rejection stops the run: the caught message is shown, that file's index stays current, and the files up to it show 100. |
| UploadObjectDialog.TraceLayout | src/components/dialogs/UploadObjectDialog.tsx:60-78 | The run's events come in blocks of twelve per file: progress 0 to 100, then the upload call. |
| UploadObjectDialog.CallsOfTrace | src/components/dialogs/UploadObjectDialog.tsx:60-89 | `onUpload` is called for file `i` exactly when `i` is before the end of the run. So later files are never uploaded after a rejection. |
| IndexPage.HandleSelectBucket | src/pages/Index.tsx:26-29 | Choosing a bucket (or `null`) selects it and clears the active menu item. |
| IndexPage.HandleMenuItemClick | src/pages/Index.tsx:31-34 | Choosing a menu item activates it and clears the selected bucket. |
| IndexPage.OnBack | src/pages/Index.tsx:48 | The back button clears the selected bucket and keeps the menu item. |
| IndexPage.ApplyAllKeepsAtMostOne | src/pages/Index.tsx:26-34 | No sequence of actions leads from "at most one chosen" to a bucket and a menu item both chosen. |
| IndexPage.ReachableAtMostOne | src/pages/Index.tsx:17-18 | From the first render (both `null`), at most one of bucket and menu item is ever chosen. |
| IndexPage.RenderContent | src/pages/Index.tsx:37-91 | The loader shows iff the bucket list or the usage record is loading. Next comes the selected bucket, if truthy, and then `dashboard`, `analytics` or `help`. Any other or no menu item shows the bucket list. |
| IndexPage.BackShowsBucketList | src/pages/Index.tsx:26-53 | From any reachable state with a bucket open, the content is that bucket's objects, and the back button always leads to the bucket list, never to a menu page. |
| IndexPage.LayoutShowsSeedCapacity | src/pages/Index.tsx:98-99 | Starting from the seed data the page ships with, whatever calls ran, the sidebar gets the seed's 100 GiB capacity as its total, and a used figure that leaves exactly `free` of it. |
| IndexPage.LayoutTotal | src/pages/Index.tsx:99 | The total handed to the layout is never 0: a missing usage and a zero total both become 1. |
| IndexPage.LayoutUsed | src/pages/Index.tsx:98 | The used figure handed to the layout is the usage's, or 0 when usage is missing. |
| IndexPage.LayoutShowsCapacity | src/pages/Index.tsx:98-99 | Whatever calls ran since the store started empty, the sidebar gets the starting capacity as its total (1 when that capacity is 0), and a used figure that leaves exactly `free` of the capacity. |

## Left out

- Latency and notifications: the `delay` timers, the `async`/`Promise` interleaving and the `toast` calls. Each store call and each dialog handler is one atomic step, so interleavings of two in-flight handlers are not modelled.
- Clock and randomness: the creation and modification timestamps (`new Date().toISOString()`) and the etag (`Math.random`) are arguments `now` and `etag`.
- `formatBytes`, `formatDate` and the sidebar and dashboard percentage math: floating point and locale formatting.
- React Query caching and invalidation in the hooks, the `localStorage` login flag, and all JSX rendering and layout: library and browser plumbing.
- Sorting.SortCopy: proves a sorted permutation but not stability. The source relies on the host's stable `Array.prototype.sort`; the model sorts by insertion, which is also stable, but stability is not stated.
- ObjectList.SortedObjects: the exact collation of `localeCompare` and `Date` parsing are parameters. Sortedness is proved only for a `localeCompare` that is a total preorder. A date that parses to `NaN` is not representable: `time` returns an integer.
- Integers are unbounded. Sizes in the source are JavaScript numbers, which stay exact up to 2^53, far above any size here.
- `mockObjects` is a JavaScript object, so keys such as `__proto__` behave oddly. The model uses a `map` from name to list, which has none of those quirks.
- Aliasing: `fetchObjects` returns the stored array itself, so a later upload also grows a list the caller already holds. `fetchBuckets` returns a new list, but of the live bucket records, which a later upload or object delete changes in place. `createBucket` returns the stored record itself. Values in the model are immutable, so none of this sharing is modelled: each read is a snapshot.
- UploadObjectDialog.HandleUpload: requires the two lists to be aligned, which every reachable dialog is (`EditsKeepAligned`). For an unaligned dialog the source would write past the end of the progress array.
- UploadObjectDialog.HandleUpload: the waits between progress steps and the `currentFileIndex` value during the run are not in the model. The trace records each progress value written and each `onUpload` call, in order.
- CreateBucketDialog.HandleSubmit: the handler does not itself check `isSubmitting`; the form's buttons are disabled while a submit is in flight. The model does not check it either.
