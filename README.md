# Short-drama platform core, modelled in Dafny

This project models the parts of the short-drama platform front end that hold state or logic of their own.

- **The in-memory mock back end** (`api/mock.js`):
  - a catalog of dramas with an auto-increment id;
  - a video-generation pipeline: a task table with its own counter, a daily quota of 20, and timed stages that move each task from PENDING through RUNNING to DONE or FAILED;
  - a retry chain for failed tasks;
  - a paginated task listing;
  - the like counters, the two-step interactive story, the short-video feed numbering, and the sample season.
- **The video store** (`stores/video.js`): favourites and a watch history of at most 200 entries.
- **The KYC gating policy** (`blockchain/kyc/policy.js`).
- **The project registry** (`blockchain/projects/registry.js`).
- **`safeAccess`** (`utils/errorHandler.js`).
- **The error-message filter and the `notification.error` config rewrite** (`main.js`).

## How the model is laid out

| file | module | models |
|---|---|---|
| `wrappers.dfy` | `Wrappers` | `Option` and `Result` |
| `lists.dfy` | `Lists` | `findIndex` with a callback, prefixes |
| `strings.dfy` | `Strings` | `includes`, `split('.')`, decimal rendering of integers |
| `json.dfy` | `Json` | JavaScript values, truthiness, property reads |
| `error_handler.dfy` | `ErrorHandler` | `safeAccess` |
| `notifications.dfy` | `Notifications` | `sanitizeContent`, the `notification.error` rewrite |
| `video_store.dfy` | `VideoStore` | the favourites and history store (`class Store`) |
| `kyc_policy.dfy` | `Kyc` | `class KycPolicy` |
| `project_registry.dfy` | `Registry` | `class ProjectRegistry` |
| `catalog.dfy` | `Dramas` | the drama records, `class Catalog` (`db`), the episode patch-back, `getSeason` |
| `video_gen.dfy` | `VideoGen` | the task record, its stages, the retry reset, the listing order and pagination |
| `mock_backend.dfy` | `MockBackend` | `genTasks`, `genQuota`, the timer queues and the pipeline endpoints (`class Backend`) |
| `narrative.dfy` | `Narrative` | `startNarrative`, `makeNarrativeChoice` |
| `feed.dfy` | `Feed` | `likeComment`/`likeShortVideo`, `getShortVideos` |

Objects the source updates in place are classes with fields, and their methods carry `modifies` clauses: the store, the policy, the registry, the catalog, the task table, the quota and the back end. Pure logic is functions over datatypes.

### The pipeline

The mock back end schedules its stage mutations with `setTimeout`. The model works as follows:

- Each scheduled mutation is a `Stage` queued under its task id in `Backend.timers`.
- `Backend.FireNextTimer` fires the head of one task's queue.
- The delays of one task are increasing, so its queue fires in order:
  - the first run at 400, 2000, 4000 and 6500 ms;
  - the retry at 400, 2000 and 5000 ms.
- Stages of different tasks interleave freely, one call at a time.
- The 10% random failure of the last first-run stage is the `fail` argument of `FireNextTimer`.
- `Date.now()` is a clock argument `now`.

`Backend.Valid` is the invariant of the whole back end:

- every task is in step with its queue (`VideoGen.InStep`);
- the task ids are exactly `task_1` .. `task_{nextId-1}`;
- `usedToday <= dailyLimit`;
- catalog ids are distinct;
- a retried task never fails again.

Every method keeps `Backend.Valid`.

A retried task keeps the `endAt` of its failed run until the retry chain finishes. The reset in `retryVideoGenTask` deletes only `error` and `videoUrl`, and the model follows that code.

## Model

| member | source | states |
|---|---|---|
| Lists.FindFirst | short-drama-platform-01/src/api/mock.js:507 | `findIndex(p)` gives the first position whose element satisfies `p`, or -1 exactly when none does |
| VideoStore.IndexOf | short-drama-platform-01/src/stores/video.js:27 | the first position of the id, or -1 exactly when it is absent |
| VideoStore.Store.IsFavorited | short-drama-platform-01/src/stores/video.js:25 | `isFavorited` agrees with the `indexOf` test that `toggleFavorite` makes |
| VideoStore.Store.ToggleFavorite | short-drama-platform-01/src/stores/video.js:26-31 | the new list is the toggled list; on a duplicate-free list it stays duplicate-free and `isFavorited(id)` flips; history unchanged |
| VideoStore.Toggled | short-drama-platform-01/src/stores/video.js:26-29 | an absent id is put in front; a present id loses one occurrence, the list one element and the multiset of ids one copy of it |
| VideoStore.ToggleAbsentPrepends | short-drama-platform-01/src/stores/video.js:26-29 | toggling an absent id puts it at index 0 and keeps the rest in order |
| VideoStore.ToggleRemovesFirstOccurrence | short-drama-platform-01/src/stores/video.js:27-28 | toggling a present id removes only its first occurrence; the rest keep their order and multiplicity |
| VideoStore.ToggleTwiceRestores | short-drama-platform-01/src/stores/video.js:26-30 | toggling an absent id twice restores the list exactly |
| VideoStore.RemoveAtKeepsDistinct | short-drama-platform-01/src/stores/video.js:28 | `splice(idx, 1)` on a duplicate-free list keeps it duplicate-free and removes the id |
| VideoStore.PrependKeepsDistinct | short-drama-platform-01/src/stores/video.js:29 | `unshift` of an absent id keeps the list duplicate-free |
| VideoStore.ToggleFlipsMembership | short-drama-platform-01/src/stores/video.js:25-29 | on a duplicate-free list, toggling keeps it duplicate-free and flips membership |
| VideoStore.FindIndexById | short-drama-platform-01/src/stores/video.js:34 | the first index whose entry has the id, or -1 when none does |
| VideoStore.Take | short-drama-platform-01/src/stores/video.js:39 | `slice(0, n)` keeps the first `min(n, length)` entries |
| VideoStore.Store.UpsertHistory | short-drama-platform-01/src/stores/video.js:33-41 | the new history is the upserted list, at most 200 entries; favourites unchanged |
| VideoStore.Upserted | short-drama-platform-01/src/stores/video.js:33-39 | at most 200 entries, each the stamped record or an old entry; the stamped record is kept when the history held fewer than 200 |
| VideoStore.UpsertBounded | short-drama-platform-01/src/stores/video.js:39 | after any upsert the history holds at most 200 entries |
| VideoStore.UpsertExistingInPlace | short-drama-platform-01/src/stores/video.js:34-36 | an existing id's entry is replaced at the same index by the record with its new `savedAt`; the other entries stay |
| VideoStore.UpsertNewAtFront | short-drama-platform-01/src/stores/video.js:37-39 | a new id's record goes to index 0 and the old entries follow, cut at 200 |
| VideoStore.OthersAppend | short-drama-platform-01/src/stores/video.js:33-39 | filtering out one id distributes over concatenation |
| VideoStore.OthersOfPrefix | short-drama-platform-01/src/stores/video.js:39 | filtering a prefix gives a prefix of the filtered list |
| VideoStore.OthersReplaceSameId | short-drama-platform-01/src/stores/video.js:36 | replacing an entry by one with the same id leaves the other entries as they were |
| VideoStore.UpsertKeepsOthersInOrder | short-drama-platform-01/src/stores/video.js:33-39 | entries with other ids keep their relative order, as a prefix of the old ones |
| VideoStore.Store.constructor | short-drama-platform-01/src/stores/video.js:8-20 | the store starts from the lists read from storage |
| Kyc.CheckRequest | short-drama-platform-01/src/blockchain/kyc/policy.js:17 | the request holds `action`, `region` and every context key, with the context's values, and nothing else |
| Kyc.CheckRequestContextWins | short-drama-platform-01/src/blockchain/kyc/policy.js:17 | the checker gets `action` and `region` unless `context` overrides them, plus every context key |
| Kyc.KycPolicy.constructor | short-drama-platform-01/src/blockchain/kyc/policy.js:2-7 | `enabled` is stored as a boolean; `region` defaults to `'GLOBAL'` when falsy; the actions become a set; the checker defaults to one that passes |
| Kyc.KycPolicy.SetEnabled | short-drama-platform-01/src/blockchain/kyc/policy.js:9 | stores `!!v`; nothing else changes |
| Kyc.KycPolicy.SetRegion | short-drama-platform-01/src/blockchain/kyc/policy.js:10 | stores the region as given; nothing else changes |
| Kyc.KycPolicy.EnforceFor | short-drama-platform-01/src/blockchain/kyc/policy.js:11 | the action becomes enforced; no other action's status changes |
| Kyc.KycPolicy.Remove | short-drama-platform-01/src/blockchain/kyc/policy.js:12 | the action stops being enforced; no other action's status changes |
| Kyc.KycPolicy.Consultation | short-drama-platform-01/src/blockchain/kyc/policy.js:15-17 | the checker is consulted exactly when the policy is enabled and the action enforced, and then with the spread request |
| Kyc.KycPolicy.Assert | short-drama-platform-01/src/blockchain/kyc/policy.js:14-19 | disabled or unenforced gives ok; otherwise ok exactly when the checker's answer is truthy; a refusal carries the fixed KYC message |
| Registry.ProjectRegistry.constructor | short-drama-platform-01/src/blockchain/projects/registry.js:2-5 | no projects and no current one |
| Registry.ProjectRegistry.Register | short-drama-platform-01/src/blockchain/projects/registry.js:6-9 | stores the addresses under the id, overwriting; the first id registered while nothing is current becomes current, later ones leave it |
| Registry.ProjectRegistry.SwitchTo | short-drama-platform-01/src/blockchain/projects/registry.js:10-14 | an unregistered id gives the "not registered" error and leaves `current`; a registered one becomes current and its addresses are returned |
| Registry.ProjectRegistry.CurrentAddresses | short-drama-platform-01/src/blockchain/projects/registry.js:15 | `{}` when nothing is current, otherwise the current project's map |
| Strings.SplitJoin | short-drama-platform-01/src/utils/errorHandler.js:8 | splitting the join of dot-free segments gives the segments back |
| Strings.JoinSplit | short-drama-platform-01/src/utils/errorHandler.js:8 | joining the parts of a split gives the path back |
| Strings.SplitAround | short-drama-platform-01/src/utils/errorHandler.js:8 | splitting `a.b` splits `a` and `b` and concatenates the parts |
| Strings.Split | short-drama-platform-01/src/utils/errorHandler.js:8 | `split('.')` gives at least one part, none containing a dot |
| Json.Get | short-drama-platform-01/src/utils/errorHandler.js:9 | reading a missing key gives `undefined` |
| ErrorHandler.IsObjectIsObj | short-drama-platform-01/src/utils/errorHandler.js:9 | `current && typeof current === 'object'` holds exactly for non-null objects |
| ErrorHandler.WalkAppend | short-drama-platform-01/src/utils/errorHandler.js:8-10 | reducing over a concatenation of keys reduces over the first list, then the second |
| ErrorHandler.DefaultOrNull | short-drama-platform-01/src/utils/errorHandler.js:6 | the default parameter `= null` replaces an omitted or `undefined` argument and keeps any other |
| ErrorHandler.Step | short-drama-platform-01/src/utils/errorHandler.js:9 | the reduce callback reads the key from a non-null object (`undefined` when missing) and gives the default for anything else |
| ErrorHandler.Walk | short-drama-platform-01/src/utils/errorHandler.js:8-10 | `reduce` over no keys is the start value; once it meets a non-object with a default that is no object, the result is that default |
| ErrorHandler.SafeAccess | short-drama-platform-01/src/utils/errorHandler.js:6-15 | a root that is no object gives the default, `null` for an omitted or `undefined` one, unless the default is an object |
| ErrorHandler.SingleSegment | short-drama-platform-01/src/utils/errorHandler.js:8-10 | a one-segment path gives `obj[key]` for a non-null object, the default (`null` for `undefined`) otherwise |
| ErrorHandler.MissingKeyIsUndefined | short-drama-platform-01/src/utils/errorHandler.js:9 | a key missing from an object yields `undefined`, not `defaultValue` |
| ErrorHandler.DottedPath | short-drama-platform-01/src/utils/errorHandler.js:8 | `a.b` reads `a`, then `b` from what it found |
| ErrorHandler.SegmentsInOrder | short-drama-platform-01/src/utils/errorHandler.js:8 | a dotted path reads one key per segment, left to right |
| ErrorHandler.NonObjectRestartsFromDefault | short-drama-platform-01/src/utils/errorHandler.js:6-9 | after a null or non-object value, the next step continues from the default |
| ErrorHandler.UndefinedDefaultIsNull | short-drama-platform-01/src/utils/errorHandler.js:6-9 | an explicit `undefined` default acts as `null`: `safeAccess({}, 'a.b', undefined)` is `null` |
| ErrorHandler.NullDefaultAbsorbs | short-drama-platform-01/src/utils/errorHandler.js:6-9 | with the default `null`, given or not, once a prefix of the path reads a non-object the whole path gives `null` |
| Notifications.SanitizeContent | short-drama-platform-01/src/main.js:14-27 | non-strings pass unchanged; a string is replaced by the fixed message exactly when it has a marker or is longer than 300, and is unchanged otherwise |
| Notifications.LongMarkersContainPrivateField | short-drama-platform-01/src/main.js:16-18 | both longer "private field" markers contain the short one |
| Notifications.SuppressedFourMarkers | short-drama-platform-01/src/main.js:16-22 | the six-marker test is the same as a four-marker test |
| Notifications.NoMarkerInNonAscii | short-drama-platform-01/src/main.js:16-21 | a string whose every character lies above `'z'` contains no marker whose first character is at or below `'z'` |
| Notifications.FailureMessageNotSuppressed | short-drama-platform-01/src/main.js:23 | the fixed message has no marker and is shorter than 300 |
| Notifications.SanitizeIdempotent | short-drama-platform-01/src/main.js:14-27 | sanitising twice equals sanitising once |
| Notifications.SpreadConfig | short-drama-platform-01/src/main.js:32 | `{ ...config }` copies an object's own properties, spreads a string to digit index keys (so no `message` or `description`), and other values to nothing |
| Notifications.SanitizeField | short-drama-platform-01/src/main.js:33-38 | the field, when a string, is sanitised and then holds no suppressed string; every other field and the key set stay as they were |
| Notifications.RewriteNotificationConfig | short-drama-platform-01/src/main.js:31-39 | the config passed on holds no suppressed string in `message` or `description`; a config that is no object passes as its spread copy |
| Notifications.RewriteTouchesOnlyMessageFields | short-drama-platform-01/src/main.js:31-39 | the rewrite keeps every key, sanitises string `message` and `description`, and copies every other field unchanged |
| Notifications.RewriteIdempotent | short-drama-platform-01/src/main.js:31-39 | rewriting an already rewritten config changes nothing |
| Dramas.NewDrama | short-drama-platform-01/src/api/mock.js:136-160 | the record has the given id and clock reading; zero counters; creator 999; defaults for a falsy duration, a falsy cover, a non-numeric season price and absent episodes |
| Dramas.FindDramaIndex | short-drama-platform-01/src/api/mock.js:129 | the first drama with the id, or -1 exactly when none has it |
| Dramas.FindEpisodeIndex | short-drama-platform-01/src/api/mock.js:507 | the first episode with the number, or -1 exactly when none has it |
| Dramas.PatchEpisodeVideo | short-drama-platform-01/src/api/mock.js:503-509 | only the matching episode of the matching drama gets the URL; every other field and record is unchanged |
| Dramas.PatchKeepsIds | short-drama-platform-01/src/api/mock.js:503-509 | the patch-back keeps the catalog's ids and their order |
| Dramas.PatchMissingIsNoOp | short-drama-platform-01/src/api/mock.js:505-508 | a missing drama or episode leaves the catalog unchanged |
| Dramas.Catalog.Seeded | short-drama-platform-01/src/api/mock.js:2-36 | the catalog starts with the two seed dramas and counter 1000 |
| Dramas.Catalog.GetDramaById | short-drama-platform-01/src/api/mock.js:127-134 | found exactly when some drama has the id, then that drama; otherwise 'Not found' |
| Dramas.Catalog.CreateDrama | short-drama-platform-01/src/api/mock.js:136-160 | takes the next id, puts the new record in front, increments the counter; the record is then found by its id |
| Dramas.Catalog.PatchEpisode | short-drama-platform-01/src/api/mock.js:503-509 | the catalog becomes the patched list; the counter is unchanged |
| Dramas.FallbackEpisodes | short-drama-platform-01/src/api/mock.js:460 | twelve episodes numbered 1 to 12, price 1.0, the first three free, durations 120 plus a draw in 0..119, so within 120..239 |
| Dramas.GetSeason | short-drama-platform-01/src/api/mock.js:453-463 | a drama with episodes gives its own episodes and price (8.0 when falsy); anything else gives the sample season at 8.0 |
| Dramas.FallbackFreePrefix | short-drama-platform-01/src/api/mock.js:460 | exactly the first three sample episodes are free |
| VideoGen.TaskKey | short-drama-platform-01/src/api/mock.js:484 | a task id is `task_` followed by the digits of the counter |
| VideoGen.NewTask | short-drama-platform-01/src/api/mock.js:485-486 | the stored record carries the request as given and `startAt = now`, and is PENDING at 0% with no outcome, in step with the first-run stages |
| VideoGen.ApplyStage | short-drama-platform-01/src/api/mock.js:488-512 | a stage keeps the request fields; RUNNING/10, then progress values, touch no outcome; the first run's last stage gives FAILED with the error or DONE/100 with the video, the retry's always DONE/100, both stamping `endAt` |
| VideoGen.ResetForRetry | short-drama-platform-01/src/api/mock.js:526 | the reset record is PENDING at 0% without `error` or `videoUrl`, with the request fields and `endAt` kept |
| VideoGen.TaskKeyInjective | short-drama-platform-01/src/api/mock.js:483-484 | different counter values give different task ids |
| VideoGen.InStepBounds | short-drama-platform-01/src/api/mock.js:486-512 | a task in step has progress within 0..100, an error exactly when FAILED, a video exactly when DONE, and is terminal exactly when nothing is queued |
| VideoGen.NewTaskInStep | short-drama-platform-01/src/api/mock.js:486-491 | a new PENDING task at progress 0 is in step with the four first-run stages |
| VideoGen.StageStep | short-drama-platform-01/src/api/mock.js:488-512 | firing the next stage keeps the task in step, never lowers progress, only advances the status, and keeps id, drama, episode and start time |
| VideoGen.ResetInStep | short-drama-platform-01/src/api/mock.js:526-529 | a reset FAILED task is in step with the three retry stages |
| VideoGen.TraceMonotone | short-drama-platform-01/src/api/mock.js:488-512 | along any run progress never decreases, the status only advances, and the run ends terminal |
| VideoGen.FirstRunOutcome | short-drama-platform-01/src/api/mock.js:488-512 | a first run goes RUNNING/10, 55, 85, then DONE/100 with the video, or FAILED at 85 with the error |
| VideoGen.RetryRunOutcome | short-drama-platform-01/src/api/mock.js:526-529 | a retry run never fails and ends DONE/100 with the video |
| VideoGen.InsertByStart | short-drama-platform-01/src/api/mock.js:538 | inserting adds exactly the one record |
| VideoGen.SortByStartDesc | short-drama-platform-01/src/api/mock.js:538 | the sorted list is a permutation of the tasks |
| VideoGen.InsertKeepsSorted | short-drama-platform-01/src/api/mock.js:538 | inserting into a list sorted by `startAt` descending keeps it sorted |
| VideoGen.SortSortsAndPermutes | short-drama-platform-01/src/api/mock.js:538 | the listing order is `startAt` descending and lists every task exactly once |
| VideoGen.SliceIndex | short-drama-platform-01/src/api/mock.js:540 | `slice` clamps an index into 0..length |
| VideoGen.JsSlice | short-drama-platform-01/src/api/mock.js:540 | `slice(start, end)` is the run of elements from the clamped start, as long as the clamped end minus the clamped start, or empty |
| VideoGen.PageOf | short-drama-platform-01/src/api/mock.js:539-541 | for a page at least 1 and a non-negative size, the page is the `[(page-1)*pageSize, page*pageSize)` stretch of the list, cut at its end, or empty past it; drawn from the list, sorted when it is, with `total` its length and the page arguments echoed |
| VideoGen.ListPage | short-drama-platform-01/src/api/mock.js:536-541 | the page is sorted by `startAt` descending and drawn from the tasks; `total` counts them; `page` and `pageSize` default to 1 and 10 only when absent |
| VideoGen.SliceAtMost | short-drama-platform-01/src/api/mock.js:540 | a slice of width `pageSize >= 0` has at most `pageSize` elements |
| VideoGen.SliceWindow | short-drama-platform-01/src/api/mock.js:539-540 | from a non-negative start the slice is that window, cut at the end |
| VideoGen.PageStart | short-drama-platform-01/src/api/mock.js:539 | the offset `(page-1)*pageSize` is non-negative for page at least 1 |
| VideoGen.WindowSorted | short-drama-platform-01/src/api/mock.js:538-540 | a window of the sorted list is sorted and drawn from it |
| VideoGen.SortedWindow | short-drama-platform-01/src/api/mock.js:538-540 | every window of a sorted list is sorted |
| VideoGen.ListPageWindow | short-drama-platform-01/src/api/mock.js:536-541 | a page is the `[(page-1)*pageSize, page*pageSize)` window of the sorted tasks, at most `pageSize` long, sorted, with `total` the number of tasks |
| VideoGen.NegativePageSizeDropsTail | short-drama-platform-01/src/api/mock.js:539-540 | a negative page size on page 1 drops that many tasks from the end |
| MockBackend.KeysBelowCount | short-drama-platform-01/src/api/mock.js:483-484 | the ids below the counter number exactly `nextId - 1` |
| MockBackend.InCreationOrder | short-drama-platform-01/src/api/mock.js:538 | `Object.values` over the ids `task_1` .. `task_{n-1}`: when all are stored, position `k-1` holds exactly the record of `task_k`, so each task once, in creation order |
| MockBackend.TaskTable.constructor | short-drama-platform-01/src/api/mock.js:39 | empty table, counter 1 |
| MockBackend.TaskTable.Put | short-drama-platform-01/src/api/mock.js:488-529 | overwriting a task's record keeps the table's ids |
| MockBackend.Quota.constructor | short-drama-platform-01/src/api/mock.js:40 | limit 20, nothing used, reset a day after start-up |
| MockBackend.Quota.CountSuccess | short-drama-platform-01/src/api/mock.js:502 | a DONE task adds one to `usedToday`, saturating at the limit |
| MockBackend.SchedulePut | short-drama-platform-01/src/api/mock.js:486-529 | storing a record in step with its new queue keeps the back end's invariant |
| MockBackend.MarkRetried | short-drama-platform-01/src/api/mock.js:521-529 | a reset task with only retry stages queued may count as retried |
| MockBackend.RetryPhaseStep | short-drama-platform-01/src/api/mock.js:527-529 | a retry stage leaves only retry stages and never yields FAILED |
| MockBackend.FireKeepsInvariants | short-drama-platform-01/src/api/mock.js:488-512 | firing one stage keeps every task in step and retried tasks settled, and never lowers progress |
| MockBackend.Backend.constructor | short-drama-platform-01/src/api/mock.js:2-40 | seed catalog, empty task table, unused quota, no timers |
| MockBackend.Backend.CreateVideoGenTask | short-drama-platform-01/src/api/mock.js:478-513 | with the quota used up, the call is refused and nothing changes; otherwise `task_<nextId>` is fresh, the counter increments, a PENDING record with defaulted options is stored, and the four stages are queued; the quota is untouched |
| MockBackend.Backend.FireNextTimer | short-drama-platform-01/src/api/mock.js:488-512 | the next stage updates the record; only a first-run DONE raises the quota, saturating, and patches the catalog; progress never decreases |
| MockBackend.Backend.GetVideoGenTask | short-drama-platform-01/src/api/mock.js:515-520 | the stored record, or the "task not found" error; a returned record has progress within 0..100 and an error exactly when FAILED |
| MockBackend.Backend.RetryVideoGenTask | short-drama-platform-01/src/api/mock.js:521-531 | unknown ids and non-FAILED tasks are refused with their messages, changing nothing; a FAILED task is reset and requeued, and was never retried before |
| MockBackend.Backend.GetVideoGenQuota | short-drama-platform-01/src/api/mock.js:532-535 | the quota fields as stored, with `usedToday <= dailyLimit = 20` |
| MockBackend.Backend.ListVideoGenTasks | short-drama-platform-01/src/api/mock.js:536-542 | every listed record is a stored task and the page is sorted; for a page at least 1 and a non-negative size, the page is the `[(page-1)*pageSize, page*pageSize)` window of the sorted creation-order list |
| MockBackend.Backend.ListingListsTheTable | short-drama-platform-01/src/api/mock.js:538-541 | the listed list is the table: one entry per stored task, `task_k` at position `k-1`, and every stored task is in the sorted list |
| MockBackend.Backend.ListTotalCountsAllTasks | short-drama-platform-01/src/api/mock.js:538-541 | `total` is the number of tasks ever created |
| Narrative.StartNarrative | short-drama-platform-01/src/api/mock.js:315-332 | session `sess-<now>` at the root branch 1, not ending, no choices made, two choices offered |
| Narrative.MakeNarrativeChoice | short-drama-platform-01/src/api/mock.js:334-368 | keeps session and drama; the story ends exactly when the branch is not 1, and then no choices are offered; one or two choices made |
| Narrative.Choose | short-drama-platform-01/src/api/mock.js:334-368 | from the root, a choice leads to branch 2 or 3 with the second pair of choices; from any other branch, to an ending at 4 or 5 with no choices |
| Narrative.ChosenBranchWasOffered | short-drama-platform-01/src/api/mock.js:315-368 | each step lands on an offered branch: the picked one for an offered index, the second one for any index but 0 |
| Narrative.TwoChoicesEnd | short-drama-platform-01/src/api/mock.js:315-368 | every session ends after exactly two choices, at branch 4 or 5, with no choices left |
| Feed.NextLikes | short-drama-platform-01/src/api/mock.js:414-418 | the new count is the old one (0 when absent) moved by one, clamped at 0 |
| Feed.LikeUnlikeRoundTrip | short-drama-platform-01/src/api/mock.js:442-446 | like then unlike restores a non-negative count; unlike then like restores a positive one; unlike at 0 stays 0 |
| Feed.OrDefault | short-drama-platform-01/src/api/mock.js:427 | `x \|\| d`: an absent or zero argument falls back to the default |
| Feed.FeedBase | short-drama-platform-01/src/api/mock.js:428 | page 1 starts at id 100, and no page with positive arguments starts below 100 |
| Feed.FeedEntry | short-drama-platform-01/src/api/mock.js:428-438 | entry `i` has id `base + i`, is not liked, plays the shared video, and takes tag `i % 3` |
| Feed.GetShortVideos | short-drama-platform-01/src/api/mock.js:425-440 | twelve videos, video `i` numbered `100 + i + ((page\|\|1)-1)*(pageSize\|\|12)`, tags cycling through three, not liked |
| Feed.FeedIdsConsecutive | short-drama-platform-01/src/api/mock.js:426-428 | the ids of a page are consecutive and increasing; tags repeat with period three |
| Feed.DefaultPagesTile | short-drama-platform-01/src/api/mock.js:427-428 | with the default page size, page `p+1` starts right after page `p` ends |
| Feed.SmallPageSizeOverlaps | short-drama-platform-01/src/api/mock.js:426-428 | with a page size below twelve, consecutive pages share ids |

## Left out

- **I/O:**
  - local storage: `load`, `saveFavorites` and `saveHistory` in the video store are not modelled; the store's constructor takes the lists that were read;
  - the artificial network delays;
  - console output;
  - the underlying `message`/`notification` calls that the wrapper forwards to.
- **Time and randomness:**
  - `Date.now()` and `new Date().toISOString()` are clock arguments;
  - `Math.random()` is the `fail` flag of `FireNextTimer`, or the `draws` of the sample season.
  - The feed's random `likes` and `duration` fields are not part of the model.
- **Concurrency:** timers of different tasks interleave, one `FireNextTimer` call at a time; the awaiting of the async KYC checker is modelled as a direct call.
- A checker that throws or rejects is not modelled.
- **JavaScript values:**
  - JavaScript numbers are unbounded integers, or reals for prices and scores; `NaN` and non-integer ids, pages and indices are not modelled;
  - ids, episode numbers and page arguments are integers; `Number(...)` conversions of strings are not modelled;
  - store ids are integers; registry ids and KYC actions are strings;
  - arrays and functions reached by `safeAccess` are not modelled as values of their own; objects are maps of own properties;
  - inherited properties such as `toString` are not modelled; the registry's `!this.projects[id]` test becomes "id not registered";
  - the `try`/`catch` in `safeAccess` is not modelled: the model's values have no getters, so no property read can throw. A throwing accessor, such as the private-field getters `safeAccess` exists to guard against, would make the source return `defaultValue`; that path is dropped;
  - strings are sequences of Unicode scalar values, while JavaScript's `length` counts UTF-16 code units. The two agree inside the Basic Multilingual Plane and differ outside it; see the `Notifications.SanitizeContent` line below.
- **Aliasing:** the records the back end hands out are values. A caller that mutates a returned task or drama object is not modelled.
- **Catalog shapes:** `createDrama` takes an already parsed episode list in place of `JSON.parse`, and `dramaData.episodes` being absent gives no episodes. The patch-back's repair of a non-array `episodes` field is not modelled, since episodes are always a list here.
- **Out of scope:**
  - `getDramas`: its comparator subtracts ISO strings;
  - `rateDrama`: floating point and randomness;
  - membership handling through local storage;
  - `updateDrama` and `deleteDrama`: they only echo their input and never touch the catalog;
  - the wallet, contract and blockchain store code;
  - the routes, and the rest of the error-handling glue.
- VideoGen.SortSortsAndPermutes: sortedness and permutation are proved, but the stability of the order among tasks with equal `startAt` is not stated. The insertion sort is stable by construction, matching `Array.prototype.sort`.
- Notifications.SanitizeContent: the `length > 300` test counts characters, not UTF-16 code units. A message of 151 to 300 characters outside the Basic Multilingual Plane, such as emoji, is replaced by the source but passed through by the model.
