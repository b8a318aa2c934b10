# Column selectors of the task board

This project models the derived-view layer of the task board's Redux store: the four column
selectors in `www/src/redux/columns/selectors.js` and the per-column caches that
`createCachedSelector` builds around them.

- `selectColumnById` looks a column up in `state.columns.byId`.
- `selectTasksOfColumn` resolves the column's task ids through the task table. It drops ids that
  do not resolve and sorts the rest stably by ascending `position`.
- `selectNestedColumnById` spreads the column and puts the resolved task list in place of its ids.
- `selectTaskPositionsOfColumn` lists `{id, position, title}` for every task. The title is the
  label `"<position>. <title> (<name>)"`.

The project is split into five files:

- `entities.dfy`: the store snapshot and the views. An object reference is a `Ref(addr, val)`.
  `===` compares `addr` only.
- `ordering.dfy`: lodash's `orderBy(['position'], ['asc'])`, written as a stable insertion sort.
  It is proved sorted, a permutation, and stable. It is also proved to be the only sorted
  arrangement that keeps ties in input order.
- `numbers.dfy`: how a template literal prints an integer, with a parse-back round trip.
- `selectors.dfy`: the result functions as pure functions of one snapshot, with lemmas about
  them.
- `memo.dfy`: the class `ColumnSelectors`. It holds one slot map per selector, keyed by column id.
  - Each method follows reselect's two levels of memoisation. If the state object is the
    remembered one, the method returns the remembered result without calling the input
    selectors.
  - Otherwise the input selectors run. The result function runs again only when one of their
    results is a different object from the remembered input.
  - For `selectNestedColumnById` and `selectTaskPositionsOfColumn`, that second level never
    reuses anything. Once the state object differs, their task input is the tasks selector's
    result for the new state. That result is always a new object, or one remembered for that
    same state. `Memo.InnerReuseNeverFires` proves this from the cache invariant.
  - Each method is proved to return exactly what the pure function gives for the current
    snapshot. The proof assumes the store is copy-on-write, which the `Coherent` precondition
    states.

Differences between the intended behaviour and the code, following the code:

- Sibling columns: the store's design describes localized invalidation, where changing one
  column's task leaves the views of other columns as the same objects. The code does not give
  this.
  - `selectTasksOfColumn` takes the whole `state` as its first input. So any new store snapshot
    rebuilds every column's task list, and with it every nested view and position list.
  - The model follows the code. `Memo.NewSnapshotRebuildsColumnView` proves that a new state
    object gives a view with a new identity. This holds for any consistent cache whose slot
    remembers another state, even when the column and its tasks did not change.
  - Only `selectColumnById` keeps the identity across snapshots. It does so for a column whose
    sibling was written (`Memo.SiblingColumnKeepsIdentity`).
- Within one snapshot, repeated reads do return the same object (`Memo.RepeatedReadIsStable`).

## Model

| member | source | states |
|---|---|---|
| Selectors.ColumnById | www/src/redux/columns/selectors.js:19-23 | the lookup yields a column exactly when the id is a key of `columns.byId`, and then the very object stored there |
| Selectors.ColumnByIdAfterWrite | www/src/redux/columns/selectors.js:19-23 | writing column `j` into the table changes the lookup of `j` only |
| Selectors.TaskById | www/src/redux/columns/selectors.js:34 | a task is found exactly when its id is in the task table, and then it is the stored task |
| Selectors.LookupTasks | www/src/redux/columns/selectors.js:34 | one lookup result per id, in id order, each the lookup of that id |
| Selectors.Present | www/src/redux/columns/selectors.js:35 | keeps exactly the found tasks: every kept task was found, every found task is kept, and no more tasks are kept than were looked up |
| Selectors.PresentKeepsCounts | www/src/redux/columns/selectors.js:35 | `filter` adds nothing: each task occurs in the result exactly as often as it was found |
| Selectors.Resolve | www/src/redux/columns/selectors.js:33-35 | the resolved tasks are stored tasks, no more of them than ids |
| Selectors.TasksFrom | www/src/redux/columns/selectors.js:28-38 | no column gives the empty list; otherwise the result holds the resolved tasks (as a multiset) and is sorted by position |
| Selectors.TasksOfColumn | www/src/redux/columns/selectors.js:25-39 | an absent column gives no tasks; the list is sorted ascending by position |
| Selectors.TasksOfAbsentColumn | www/src/redux/columns/selectors.js:29-31 | an id with no column yields the empty list rather than an error |
| Selectors.ResolveStep | www/src/redux/columns/selectors.js:34-35 | the first id contributes its stored task when it has one, and nothing when it dangles |
| Selectors.ResolvedTasksAreStored | www/src/redux/columns/selectors.js:34-35 | every resolved task is the stored task of one of the ids, and there are no more of them than ids |
| Selectors.ResolvedTasksAreComplete | www/src/redux/columns/selectors.js:34-35 | every id that resolves contributes its task |
| Selectors.ResolvedIdsAreKnownIds | www/src/redux/columns/selectors.js:34-35 | with tasks stored under their own ids, the resolved tasks' ids are the known ids in order: exactly the dangling ids are dropped |
| Selectors.ResolveWithoutDangling | www/src/redux/columns/selectors.js:34-35 | when no id dangles, task i is the task of id i and the length is kept |
| Selectors.InsertKeepsIds | www/src/redux/columns/selectors.js:36 | inserting a task adds exactly its id to the ids |
| Selectors.SortKeepsIds | www/src/redux/columns/selectors.js:36 | sorting keeps the multiset of ids |
| Selectors.TasksOfColumnAreResolved | www/src/redux/columns/selectors.js:33-37 | the task list holds the stored task of every resolvable id of the column and nothing else, and is no longer than the id list |
| Selectors.TasksOfColumnIds | www/src/redux/columns/selectors.js:33-37 | with tasks stored under their own ids, the list's ids are the column's known ids with multiplicity |
| Selectors.TasksOfColumnIsStable | www/src/redux/columns/selectors.js:36 | tasks with equal positions keep the order their ids have in the column |
| Selectors.TasksOfColumnIsTheStableSort | www/src/redux/columns/selectors.js:33-37 | any sorted list that keeps every tie group in column order is the task list |
| Selectors.StableSortExample | www/src/redux/columns/selectors.js:33-37 | positions 2, 1, 1, 3 for tasks A, B, C, D are listed B, C, A, D |
| Selectors.DanglingIdExample | www/src/redux/columns/selectors.js:34-35 | an id with no task is left out of the list |
| Ordering.InsertIsOrderedInsertion | www/src/redux/columns/selectors.js:36 | insertion adds exactly the one task and keeps a sorted list sorted |
| Ordering.SortByPosition | www/src/redux/columns/selectors.js:36 | the sort result is ordered by ascending position and is a permutation of its input |
| Ordering.WithPositionMembers | www/src/redux/columns/selectors.js:36 | the tie group of position p holds exactly the tasks at p |
| Ordering.InsertWithPosition | www/src/redux/columns/selectors.js:36 | insertion puts the new task at the front of its tie group and leaves the other groups alone |
| Ordering.SortKeepsTiesInOrder | www/src/redux/columns/selectors.js:36 | the sort is stable: each tie group keeps its input order |
| Ordering.SortedTiesDetermine | www/src/redux/columns/selectors.js:36 | two sorted lists with the same tie groups are equal |
| Ordering.SortedHeadsAgree | www/src/redux/columns/selectors.js:36 | two non-empty sorted lists with the same tie groups start with the same task |
| Ordering.StableSortIsUnique | www/src/redux/columns/selectors.js:36 | the sort is the only sorted arrangement that keeps ties in input order |
| Ordering.OrderExample | www/src/redux/columns/selectors.js:36 | positions 2, 1, 1, 3 sort to the order of the second, third, first and fourth task |
| Selectors.Spread | www/src/redux/columns/selectors.js:49-52 | the view keeps every field of the column and replaces only its task ids, by the given task list |
| Selectors.NestedFrom | www/src/redux/columns/selectors.js:44-53 | no column gives no view; otherwise the view is the column spread with the given task list |
| Selectors.NestedColumnById | www/src/redux/columns/selectors.js:41-54 | the view is absent exactly when the column is; otherwise it carries every field of the column, and its tasks are the column's task list |
| Selectors.Label | www/src/redux/columns/selectors.js:62 | reading the number before the label's first '.' gives the task's position back |
| Selectors.TaskPositions | www/src/redux/columns/selectors.js:58-63 | one entry per task, in task order, with the task's id, its position and its label |
| Selectors.TaskPositionsOfColumn | www/src/redux/columns/selectors.js:56-64 | as many entries as the column has tasks, none for an absent column, positions ascending |
| Selectors.TaskPositionsFollowTasks | www/src/redux/columns/selectors.js:56-64 | entry i is built from task i of the column's task list |
| Selectors.PositionListExample | www/src/redux/columns/selectors.js:58-63 | tasks at positions 1 and 2 are labelled "1. Fix (bug)" and "2. Test (feature)" |
| Selectors.BeforeDotOfConcat | www/src/redux/columns/selectors.js:62 | the text before the first '.' of a dot-free prefix followed by ". …" is that prefix |
| Numbers.DigitChar | www/src/redux/columns/selectors.js:62 | a value below ten prints as a digit character |
| Numbers.NatDecimal | www/src/redux/columns/selectors.js:62 | a natural number prints as a non-empty run of digits; it starts with '0' exactly when it is zero, and then it is the single digit |
| Numbers.Decimal | www/src/redux/columns/selectors.js:62 | an integer prints as a leading '-' exactly when it is negative, followed by its canonical digits: no leading zero, and "0" for zero |
| Numbers.NatDecimalRoundTrip | www/src/redux/columns/selectors.js:62 | parsing the printed natural number gives it back |
| Numbers.DecimalRoundTrip | www/src/redux/columns/selectors.js:62 | parsing the printed integer gives it back |
| Memo.ColumnCall | www/src/redux/columns/selectors.js:19-23 | a call without a slot looks the column up; with one, it returns either the lookup or the remembered column |
| Memo.ColumnCallIsLookup | www/src/redux/columns/selectors.js:19-23 | under copy-on-write, a consistent slot makes the call return the current lookup |
| Memo.InPlaceChangeIsNotSeen | www/src/redux/columns/selectors.js:19-23 | a consistent slot hit by a state changed in place returns the old column, which differs from the current lookup; this is why the store must be copy-on-write |
| Memo.InPlaceDeletionExample | www/src/redux/columns/selectors.js:19-23 | a column deleted in place from the same state and `byId` objects is still returned |
| Memo.NestedCall | www/src/redux/columns/selectors.js:44-53 | the remembered view when both inputs are the remembered objects; otherwise the view of the inputs, with the given new identity |
| Memo.PositionsCall | www/src/redux/columns/selectors.js:58-63 | the remembered list when the task list is the remembered object; otherwise the position list of the tasks, with the given new identity |
| Memo.ColumnWriteKeepsSlotsOk | www/src/redux/columns/selectors.js:19-23 | storing a correct column slot keeps every cache consistent |
| Memo.TasksWriteKeepsSlotsOk | www/src/redux/columns/selectors.js:25-39 | a task list with a fresh identity keeps every cache consistent, because no slot can mistake it for an input it remembers |
| Memo.NestedWriteKeepsSlotsOk | www/src/redux/columns/selectors.js:41-54 | storing a correct view slot whose task input is the current task list keeps every cache consistent |
| Memo.PositionsWriteKeepsSlotsOk | www/src/redux/columns/selectors.js:56-64 | storing a correct position slot whose task input is the current task list keeps every cache consistent |
| Memo.InnerReuseNeverFires | www/src/redux/columns/selectors.js:41-64 | when the view or position slot remembers another state object, its remembered task list is not the tasks selector's result for the current state |
| Memo.ColumnSelectors.constructor | www/src/redux/columns/selectors.js:19-23 | the caches start empty and consistent |
| Memo.ColumnSelectors.SelectColumnById | www/src/redux/columns/selectors.js:19-23 | returns the column of the current snapshot, as `ColumnCall` on the remembered slot; an unchanged `byId` object returns the remembered column; only this key's slot changes |
| Memo.ColumnSelectors.SelectTasksOfColumn | www/src/redux/columns/selectors.js:25-39 | returns the current task list; the same state object returns the remembered list, and a different one allocates a new list and refreshes the column slot |
| Memo.ColumnSelectors.SelectNestedColumnById | www/src/redux/columns/selectors.js:41-54 | returns the current view; the same state returns the remembered view; otherwise both inputs are selected again, the remembered view is not reused, and the view is a new object |
| Memo.ColumnSelectors.RecomputeNestedColumn | www/src/redux/columns/selectors.js:41-54 | the miss path: the column and task inputs are selected again, the result stage builds the current view with a new identity, and the cache stays consistent |
| Memo.ColumnSelectors.SelectTaskPositionsOfColumn | www/src/redux/columns/selectors.js:56-64 | returns the current position list; the same state returns the remembered list; otherwise the task list is selected again, the remembered list is not reused, and the list is a new object |
| Memo.ColumnSelectors.RecomputeTaskPositions | www/src/redux/columns/selectors.js:56-64 | the miss path: the task input is selected again, the result stage builds the current position list with a new identity, and the cache stays consistent |
| Memo.RepeatedReadIsStable | www/src/redux/columns/selectors.js:41-54 | two reads of a column view on one snapshot return the identical object, holding the column's view |
| Memo.NewSnapshotRebuildsColumnView | www/src/redux/columns/selectors.js:25-54 | for any consistent cache whose view slot remembers another state object, an existing column's view comes back with the current contents and an identity different from the remembered view |
| Memo.SiblingColumnKeepsIdentity | www/src/redux/columns/selectors.js:19-23 | after a write of another column into a new `byId` and state object, the column comes back as the very object remembered before |

## Left out

- www/src/containers/Board/index.js is not part of this model: it is the UI component that calls the selectors.
- `selectTaskById` comes from `www/src/redux/tasks/selectors.js`, which is not part of this model. The model assumes that it returns the task object stored under the id, or nothing, and models it as that plain lookup (`Selectors.TaskById`), without a cache of its own. If it built new objects, the task list's contents would be the same but its elements' identities would not be modelled.
- `selectDomainState` and `selectColumnByIdMap` (lines 12-17) are modelled as the projection `state.columnsById`. Their single-slot `createSelector` cache returns that same object whenever the store is copy-on-write.
- The board selectors are not part of this model.
- Positions are integers. Fractional positions, `NaN` and the exponent form JavaScript prints for magnitudes of 1e21 and above are not modelled.
- Numbers.Decimal: positions are taken to be safe integers (magnitude at most 2^53 - 1, `Number.MAX_SAFE_INTEGER`). From 2^53 up, JavaScript numbers are not all integers of the model, and `${n}` prints the shortest round-trip digits padded with zeros (`${2**60}` is "1152921504606847000"), while `Decimal` prints the exact integer.
- Column ids are plain map keys. Keys inherited from `Object.prototype` (such as `"constructor"`) are not modelled.
- Tasks are looked up by id. `filter(task => !!task)` therefore drops only missing tasks, because every stored task is an object.
- The reducer that writes the store is not modelled. Its copy-on-write obligation appears only as the precondition `Memo.ColumnSelectors.Coherent`, so in-place mutation cannot reach the methods. `Memo.InPlaceChangeIsNotSeen` and `Memo.InPlaceDeletionExample` go through the hit path of `Memo.ColumnCall` and show the stale column it would return.
- Cache slots are never evicted, as in the code. The slot maps only grow, and the model does not bound them.
- re-reselect's cache object, its key resolver and reselect's own bookkeeping are collapsed into one slot map per selector, keyed by column id. Each slot remembers only the last arguments, the last inputs and the last result. That is reselect 4's `defaultMemoize` (cache size 1) at both levels. The source does not pin a version; reselect 5's default `weakMapMemoize`, which keeps many entries, is not modelled.
- Column ids are restricted to strings (`ColumnId = string`). re-reselect keys its cache with a plain object, so the number `1` and the string `"1"` would share one slot while reselect's `===` check on `columnId` tells them apart. With string keys only, a key's slot always holds that same `columnId`, so the check is always true and is not modelled separately.
- Object identities come from a counter (`nextAddr`), not from a heap. Garbage collection is not modelled.
- `NestedColumn.tasks` holds the task list's contents. The identity of the task list the view was built from is kept in the slot (`NestedSlot.tasks`).
- Concurrency is not modelled, because the selectors run on one synchronous thread.
