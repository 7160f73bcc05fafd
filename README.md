# Task-list engine of a to-do web app, modelled in Dafny

This project models the list logic of a React to-do application and proves
properties of that model.

**The task-list component** (`tasks/TasksList.tsx`):
- the display order `reorderTasks`: pinned tasks first, each group sorted
  by one of four comparators, done tasks optionally moved to the bottom;
- the drag-and-drop write-back `handleDragEnd`: `arrayMove`, then every
  task's `position` set to its new index;
- the bulk actions: mark selected done, delete selected with tombstones,
  deselect, clear the selection;
- the context-menu delete `confirmDeleteTask`;
- the overdue notice `checkOverdueTasks`.

**The application shell** (`App.tsx`):
- the start-up migration `updateNestedProperties`, which fills a stored user
  record from the default user;
- the theme choice `getMuiTheme`;
- the dark-mode flag;
- the app-badge count.

Layout:

| file | module | contents |
|---|---|---|
| `wrappers.dfy` | `Wrappers` | `Option` |
| `sequences.dfy` | `Sequences` | `Array.prototype.filter` as `Filter`, with its facts |
| `tasks.dfy` | `Tasks` | the `Task` record; unique ids |
| `ordering.dfy` | `Ordering` | comparators, stable sort, `Reorder`, ordering lemmas |
| `drag_reorder.dfy` | `DragReorder` | `FindIndex`, `ArrayMove`, position write-back |
| `bulk_actions.dfy` | `BulkActions` | what each selection handler computes |
| `overdue.dfy` | `Overdue` | overdue filter and notice |
| `tasks_list.dfy` | `TasksList` | class `TasksListState`: fields plus handler methods |
| `migration.dfy` | `Migration` | JSON values, `Merge`, the imperative `UpdateNestedProperties`, default user |
| `app_shell.dfy` | `AppShell` | theme choice, dark mode, badge |
| `scenarios.dfy` | `Scenarios` | worked examples on small collections |

How each part is modelled:
- **Handlers.** They are methods of `TasksListState`. Each reassigns the fields the handler changes, among `tasks`, `deletedTasks`, the multi-selection `selected` and the menu's `selectedTaskId`. Only `OpenMenu`, which models `handleClick` (tasks/TasksList.tsx:113-133), sets `selectedTaskId`; the single delete reads it. The handlers keep the invariant that task ids are unique.
- **Ordering.** It is a set of pure functions. `Array.prototype.sort` becomes a stable insertion sort driven by the source's comparator. For a consistent comparator, every stable sort gives this same result.
- **`localeCompare`.** It is the parameter `collate`. Results about the alphabetical mode assume that `collate` is a consistent comparison (`IsCollation`).
- **Time and environment.** Timestamps are integers (milliseconds). The current time `now`, the route, the system theme and the browser's capabilities are parameters.
- **Migration.** It is an imperative method over JSON values: a loop over the default's keys, recursion into nested defaults. It is proved equal to the recursive function `Merge`, and the lemmas are stated about `Merge`.

## Model

| member | source | states |
|---|---|---|
| Ordering.CompareAgrees | tasks/TasksList.tsx:157-175 | A negative comparator result puts a before b in the order that sort option promises. A non-negative result puts b before a. This holds for all four options, given a consistent collation in the alphabetical mode. |
| Ordering.InOrderTransitive | tasks/TasksList.tsx:157-175 | The promised order of each option is transitive. For dueDate, a task with no deadline may sit on either side of another such task. |
| Ordering.Insert | tasks/TasksList.tsx:158-175 | Inserting into a sorted group yields that group plus the new task. |
| Ordering.InsertionSort | tasks/TasksList.tsx:158-175 | The stable sort returns the same tasks, each as often as before. |
| Ordering.InsertionSortSorted | tasks/TasksList.tsx:158-175 | The stable sort's result is in the order the option promises. |
| Ordering.SortGroup | tasks/TasksList.tsx:155-180 | `sortTasks` returns a permutation of its group. An unrecognised option returns the group unchanged. |
| Ordering.SortGroupSorted | tasks/TasksList.tsx:155-180 | Every sorted group follows its option's order. |
| Ordering.FilterSorted | tasks/TasksList.tsx:187-188 | Filtering a sorted group leaves it sorted. |
| Ordering.MoveDoneToBottom | tasks/TasksList.tsx:186-190 | The done-to-bottom partition is a permutation of the group. |
| Ordering.ReorderPermutation | tasks/TasksList.tsx:148-195 | `reorderTasks` returns exactly its input tasks: same length, same multiset. |
| Ordering.GroupsShape | tasks/TasksList.tsx:151-190 | The pinned group is a permutation of the pinned tasks (same multiset) and so holds every pinned task and nothing else. The unpinned group is likewise a permutation of the unpinned tasks, with or without the done-to-bottom split. |
| Ordering.ReorderPinnedFirst | tasks/TasksList.tsx:151-192 | Every pinned task comes before every unpinned task, for every option and flag value. |
| Ordering.ReorderDoneToBottom | tasks/TasksList.tsx:186-190 | With doneToBottom, no unpinned not-done task comes after an unpinned done task. |
| Ordering.PartitionGroupsSorted | tasks/TasksList.tsx:186-190 | The done/not-done split keeps the sorted order on each side. |
| Ordering.ReorderGroupsSorted | tasks/TasksList.tsx:148-192 | Within each group (pin state, plus done state under doneToBottom), any two tasks are in the promised order. Examples: ascending custom positions, defined positions first, dated tasks first under dueDate. The pinned group is not split by done. |
| Ordering.ReorderDoneFlag | tasks/TasksList.tsx:186-192 | The flag leaves the pinned prefix alone. It only splits the unpinned part stably into not-done then done. |
| Ordering.ReorderUnrecognised | tasks/TasksList.tsx:177-178 | An unrecognised option leaves each group in input order. |
| DragReorder.FindIndex | tasks/TasksList.tsx:341-342 | `findIndex` by id returns the first index carrying the id, or -1 exactly when the id is absent. |
| DragReorder.FindIndexUnique | tasks/TasksList.tsx:349 | Under unique ids, a task's id is found at that task's index. |
| DragReorder.ArrayMove | tasks/TasksList.tsx:346 | The moved element lands at the target index. Removing it from both sides leaves equal sequences. The result is a permutation. |
| DragReorder.ArrayMoveShifts | tasks/TasksList.tsx:346 | Elements outside the moved span stay put. Those inside shift by one towards the source index. |
| DragReorder.AssignPositions | tasks/TasksList.tsx:348-351 | The write-back keeps the collection's length. |
| DragReorder.AssignPositionsEffect | tasks/TasksList.tsx:348-351 | The collection's order and all other fields are kept. A task found in the new order gets its index there and `lastSave = now`. A task that is not found is unchanged. |
| DragReorder.DensePositions | tasks/TasksList.tsx:348-351 | For a rearrangement with unique ids, positions are exactly 0..n-1. Each is used once and points at the task's own slot in the new order. |
| DragReorder.DraggedTaskLandsAtTarget | tasks/TasksList.tsx:341-351 | The dragged task's stored position is the drop index. |
| DragReorder.DragWriteBack | tasks/TasksList.tsx:346-351 | A completed drag keeps ids and order, saves every task, gives dense positions, keeps ids unique and places the dragged task at the drop index. |
| TasksList.DisplayedDragWriteBack | tasks/TasksList.tsx:341-351 | The same facts, for a drag over `reorderTasks` of the collection. |
| TasksList.TasksListState.constructor | tasks/TasksList.tsx:74-91 | The state the component reads from its contexts, held as given: tasks, tombstones, the multi-selection, the menu task id (if any), sort option and flag. Ids are unique from the start. |
| TasksList.TasksListState.OpenMenu | tasks/TasksList.tsx:113-133 | A click inside the task's description link changes nothing. Any other click sets the menu task id to the clicked task. Nothing else in the state changes. |
| TasksList.TasksListState.DragEnd | tasks/TasksList.tsx:338-355 | No drop target, dropping on itself, or either id missing from the displayed order: nothing changes. Otherwise the tasks become the write-back of `arrayMove` on the displayed order, with dense positions and the dragged task at the target index. Ids stay unique and the other fields are unchanged. |
| TasksList.TasksListState.MarkSelectedAsDone | tasks/TasksList.tsx:230-242 | Tasks become `MarkSelectedDone` of the old tasks and selection, and the selection becomes empty. Nothing else changes. |
| TasksList.TasksListState.DeleteSelected | tasks/TasksList.tsx:595-607 | Tasks become the unselected ones, in their original order, and the tombstones gain the new selected ids. The selection becomes empty and ids stay unique. |
| TasksList.TasksListState.DeselectTask | tasks/TasksList.tsx:454-457 | Only the selection changes, to `Deselect` of it. |
| TasksList.TasksListState.ClearSelection | tasks/TasksList.tsx:407 | Only the selection changes, to empty. |
| TasksList.TasksListState.ConfirmDeleteTask | tasks/TasksList.tsx:199-208 | With no menu task id, or an empty one, nothing changes. Otherwise that task leaves the collection, the rest keep their order, and its id is appended to the tombstones without a duplicate check. |
| BulkActions.MarkSelectedDone | tasks/TasksList.tsx:233-239 | Ids and order are kept. A task is done exactly when it was done or is selected. Selected tasks get `lastSave = now` and nothing else changes on them. Unselected tasks are unchanged. |
| BulkActions.MarkSelectedDoneOverdue | tasks/TasksList.tsx:233-239 | After marking, the overdue list is the old overdue list minus the selected tasks. |
| BulkActions.RemainingAfterDelete | tasks/TasksList.tsx:599 | A task remains exactly when it was present and its id is not selected. The remaining tasks are a subsequence of the old ones, so they keep their original order. They are a sub-multiset of the old ones and ids stay unique. |
| BulkActions.TombstonesAfterDelete | tasks/TasksList.tsx:600-603 | The old tombstones remain a prefix. Every appended id is selected and was not a tombstone. An id is a tombstone afterwards exactly when it was one or was selected. The appended part is a subsequence of the selection: an id is appended at most as often as it occurs in the selection, in selection order. It is duplicate-free whenever the selection is, and the whole list is duplicate-free when the old tombstones were too. |
| BulkActions.Deselect | tasks/TasksList.tsx:455-456 | An id stays selected exactly when it was selected and is not the deselected one. The rest keep their order, as a subsequence of the old selection. |
| BulkActions.RemainingAfterSingleDelete | tasks/TasksList.tsx:203 | A task remains exactly when it was present and has a different id. The rest keep their original order, as a subsequence of the old collection. |
| BulkActions.FilterUniqueIds | tasks/TasksList.tsx:203 | Filtering preserves unique ids. |
| Overdue.OverdueTasks | tasks/TasksList.tsx:292-294 | A task is listed exactly when it is in the collection, has a deadline, `now` is past that deadline, and it is not done. The list is a subsequence of the collection, in collection order. |
| Overdue.CheckOverdue | tasks/TasksList.tsx:286-301 | A notice exists exactly when the route is not `/share` and some task is overdue. It names every overdue task in order, with a plural heading exactly when there is more than one. |
| Migration.MergeItems | App.tsx:34-61 | After visiting n default indices, the array's length is the larger of its old length and n. |
| Migration.MergeFieldsAt | App.tsx:34-75 | A visited default key holds its visited value: skipped, filled, kept, or merged. Every other key holds the stored value. |
| Migration.MergeFieldsStep | App.tsx:34-75 | Visiting one more key changes only that key, and it reads the value stored before the loop. |
| Migration.MergeItemsStep | App.tsx:34-61 | Visiting one more index changes only that index, appending when the stored array is shorter. |
| Migration.UpdateNestedProperties | App.tsx:27-81 | The key-by-key loop with recursion, deletion and assignment computes `Merge` of the stored and default values. |
| Migration.MergeFalsy | App.tsx:30-32 | A falsy or absent stored value gives the whole default. |
| Migration.MergeObjectFields | App.tsx:34-61 | No stored key is lost; a default key is added unless skipped; stored-only keys keep their values; missing fields get the default; present scalar-default fields are kept; object defaults merge recursively. |
| Migration.MergeSpecialKeys | App.tsx:35-59 | `categories` is never touched. `colorList` is left alone when the user's colour list is customised. An array-shaped `settings` is replaced by the default settings. |
| Migration.MergeSelf | App.tsx:27-81 | Merging a default into itself gives it back. |
| Migration.VisitTwice | App.tsx:35-75 | Visiting a key twice equals visiting it once. |
| Migration.VisitItemTwice | App.tsx:55-61 | Visiting an index twice equals visiting it once. |
| Migration.MergeIdempotent | App.tsx:25-81 | Running the migration on its own output changes nothing. |
| Migration.DefaultSettingsShape | defaultUser.ts:20-28 | Every default setting is a flag with an ordinary key name. |
| Migration.StoredSettingsCompleted | App.tsx:58-61 | A stored settings object keeps each stored setting and gains every missing default setting. |
| Migration.StoredUserSettingsCompleted | App.tsx:58-61 | Migrating a stored user whose `settings` is an object against the default user (defaultUser.ts:20-28): each of the seven flags is present afterwards, with the stored value where there was one and the default otherwise. |
| AppShell.FindTheme | App.tsx:136 | `Themes.find` by name returns the first theme with the name, or -1 exactly when there is none. |
| AppShell.SelectTheme | App.tsx:129-138 | Unknown system theme gives the first theme. `"system"` gives the first (dark) or second theme. A named theme gives the first theme of that name, or the first theme when none matches. |
| AppShell.DarkmodeFollowsSystemOnlyOnAuto | App.tsx:153 | Dark mode ignores the system theme unless the setting is `"auto"`, which follows it. |
| AppShell.IncompleteCount | App.tsx:114 | The count plus the number of done tasks is the collection size. It is zero exactly when every task is done. |
| AppShell.MarkSelectedDoneCount | App.tsx:114 | After marking the selection done, the count is the number of open unselected tasks. |
| AppShell.Badge | App.tsx:111-126 | The badge is set exactly when supported, enabled and permitted, to the incomplete count. It is cleared exactly when supported and disabled. |
| Sequences.Filter | tasks/TasksList.tsx:151-152 | `Array.prototype.filter`: the result is no longer than the input and every element passes the test. FilterContains, FilterSubMultiset and FilterSubsequence add: exactly the passing elements, none added, original order kept. |
| Sequences.FilterSubsequence | tasks/TasksList.tsx:599 | The filtered sequence sits in the input at strictly increasing positions: filtering never reorders. |
| Ordering.Compare | tasks/TasksList.tsx:157-175 | The four comparators as written: creation-date difference; dueDate puts a missing deadline last, else deadline difference; `localeCompare` of names; custom compares positions, puts missing ones last, and falls back to creation date. What their signs mean is stated by CompareAgrees. |
| Ordering.PinnedGroup | tasks/TasksList.tsx:151-183 | The pinned tasks, sorted by the option. GroupsShape states it holds exactly the pinned tasks; SortGroupSorted states its order. |
| Ordering.UnpinnedGroup | tasks/TasksList.tsx:152-190 | The unpinned tasks, sorted by the option, then split into not-done and done when the flag is set. GroupsShape, ReorderDoneToBottom and ReorderDoneFlag state its contents and order. |
| Ordering.Reorder | tasks/TasksList.tsx:148-195 | `reorderTasks`: the pinned group followed by the unpinned group. ReorderPermutation, ReorderPinnedFirst, ReorderGroupsSorted, ReorderDoneToBottom, ReorderDoneFlag and ReorderUnrecognised state what it promises. |
| TasksList.TasksListState.Ordered | tasks/TasksList.tsx:197 | `orderedTasks`: `Reorder` of the current tasks under the state's sort option and flag. DragEnd looks both ids up in it and moves within it. |
| DragReorder.Place | tasks/TasksList.tsx:349-350 | One task of the write-back: its index in the new order and the current time when the id is found there, the task itself otherwise. AssignPositionsEffect states this for every index. |
| BulkActions.HasSelectedTaskId | tasks/TasksList.tsx:200 | JavaScript truthiness of the menu's task id: present and not the empty string. ConfirmDeleteTask does nothing without it. |
| Overdue.IsOverdue | tasks/TasksList.tsx:293 | A deadline exists, `now` is past it, and the task is not done. OverdueTasks and CheckOverdue are stated through it. |
| Migration.Merge | App.tsx:27-81 | The migration as a recursive function: a falsy stored value gives the default; two objects merge key by key; two arrays merge index by index; anything else is kept. UpdateNestedProperties is proved equal to it; MergeFalsy, MergeObjectFields, MergeSpecialKeys, MergeSelf and MergeIdempotent state its properties. |
| Migration.Visit | App.tsx:35-75 | One iteration of the key loop: skipped keys are left alone; an array `settings` is dropped first; an object default is merged into recursively; a missing value gets the default; a present value is kept. MergeFieldsAt and VisitTwice state its effect. |
| Migration.MergeFields | App.tsx:34-75 | The stored object after the loop has visited the given default keys. MergeFieldsAt and MergeFieldsStep state it key by key and step by step. |
| Migration.VisitItem | App.tsx:55-61 | One iteration over an array default's index: an object default is merged into, a missing element gets the default, a present one is kept. VisitItemTwice and MergeItemsStep state its effect. |
| Migration.ColorListCustomised | App.tsx:38-43 | The current user's colour list is set and differs from the default colours at some index. MergeSpecialKeys states that `colorList` is then left alone. |
| Migration.Skipped | App.tsx:35-44 | The keys the loop returns early on: `categories` always, `colorList` when customised. MergeSpecialKeys states that these keep their stored value. |
| AppShell.Darkmode | App.tsx:153 | Dark exactly when the setting is `"dark"`, or `"auto"` while the system theme is dark. DarkmodeFollowsSystemOnlyOnAuto states how it depends on the system theme. |
| Scenarios.CustomPositionsExample | tasks/TasksList.tsx:169-175 | Positions 2, 0, 1 on A, B, C display as B, C, A. |
| Scenarios.DueDateExample | tasks/TasksList.tsx:161-166 | No deadline, 2025-01-01 and 2024-01-01 display as the 2024 task, the 2025 task, then the one with no deadline. |
| Scenarios.DragMoveExample | tasks/TasksList.tsx:346 | Moving index 0 to 2 in A, B, C, D gives B, C, A, D. |
| Scenarios.DragPositionsExample | tasks/TasksList.tsx:348-351 | That order stores A=2, B=0, C=1, D=3. |
| Scenarios.OverdueExample | tasks/TasksList.tsx:288-301 | An open task past its deadline and a done one give one notice naming only the first. |

## Behaviour worth noting

- **Single delete and duplicate tombstones.** `confirmDeleteTask` appends the menu task's id to `deletedTasks` without a duplicate check (tasks/TasksList.tsx:208). Confirming twice with the same menu task therefore records the id twice (`TasksListState.ConfirmDeleteTask`). Only delete-selected deduplicates (tasks/TasksList.tsx:600-603).
- **`lastSave` after a drag.** Line 350 of tasks/TasksList.tsx refreshes `lastSave` on every task it finds in the new order, whether or not its position moved (`DragReorder.AssignPositionsEffect`).
- **Selection after a single delete.** The single delete leaves the multi-selection as it is (tasks/TasksList.tsx:199-216), so the selection can still hold the deleted id (`TasksListState.ConfirmDeleteTask`). Only delete-selected clears it.

## Left out

- **Rendering.** JSX, MUI components, dialogs and their open/close state, tooltips and styling are not modelled. Neither are toasts or the `Intl.ListFormat` joining: the notice carries the list of names.
- **dnd-kit machinery.** Sensors, the drag overlay, `activeDragId` and `requestAnimationFrame` are not modelled. `arrayMove` is modelled only as the sequence move `ArrayMove` defines (remove at `from`, reinsert at `to`).
- **React timing.** Memoisation, effect order and stale closures are not modelled. Each handler is one sequential state change on the current state. The in-place push into `deletedTasks` becomes an append to that field.
- **Category tally.** The computation at tasks/TasksList.tsx:247-284 has no observable effect (its results are discarded). The `category` field of a task is omitted because nothing modelled reads it.
- **Context menu position.** `OpenMenu` sets only the menu task id. The anchor element, the click position (tasks/TasksList.tsx:122, 125-128) and `preventDefault` are not modelled. Whether the click landed inside the description link is the parameter `onDescriptionLink`.
- **Selecting a task.** `handleSelectTask` is not part of this model. Neither is the idempotence of selecting an already selected id.
- **Dates.** Dates are integer timestamps, and parsing of date strings is not modelled. `new Date()` is the parameter `now`.
- **`localeCompare`.** It is the parameter `collate`, with no locale behaviour.
- Ordering.InsertionSort: under dueDate, two tasks without a deadline compare as 1 both ways. The insertion sort keeps such tasks in input order, whereas JavaScript's result depends on the engine's sort algorithm. For that reason no lemma promises anything about their relative order.
- **`useSystemTheme`.**
  - `useSystemTheme` and `createTheme` are not part of this model.
  - The system theme is a parameter.
  - Themes appear only as their list of names, which must hold at least two entries, as `Themes[1]` requires.
  - MUI theme objects and the theme-color meta tag are not modelled.
- **App badge.** The badge and Notification APIs and their asynchrony are not modelled. Support and permission are parameters. The one flag `supported` of `AppShell.Badge` stands for both `"setAppBadge" in navigator` (App.tsx:124) and `"clearAppBadge" in navigator` (App.tsx:102). A browser with one of the two and not the other is not modelled. The `isNaN` guard always passes, because the count is a natural number.
- **Toasts in the migration.** These are the toasts at App.tsx:48-52 and App.tsx:62-74. The second one calls `.toString()` on a filled `null` default, namely `name` and `profilePicture` at defaultUser.ts:9 and 11, which makes the source throw. The model carries on as if the toast had succeeded.
- Migration.Merge: some stored values have a shape that does not match the default. Cases:
  - a truthy scalar where the default holds an object or array;
  - an array where the default holds an object;
  - an object where the default holds an array.

  All three are returned unchanged. There the source would assign into a scalar, which throws in strict mode, or would add keys to the mismatched container.
- Migration.Merge: JSON numbers are integers, so `NaN` (also falsy) is not modelled.
- Migration.ColorListCustomised: a `colorList` that is not an array is treated as having no elements. For a string this gives the source's outcome, because no single character equals a seven-character colour. For an object with digit keys it does not.
- Migration.UpdateNestedProperties: it works on values. The source mutates the stored object in place. For a falsy value it returns the default object itself, so later writes can reach the shared default user. That aliasing is not modelled.
- **Default user fixture.** The emoji style depends on the operating system and is a parameter of `DefaultUser`. `createdAt` is a `Date`, modelled as an object without keys.
