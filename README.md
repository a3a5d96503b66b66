# To-do list state model

A Dafny model of the task-list logic of the `TodoApp` React component
(`src/components/TodoApp.jsx`). The component keeps three pieces of state:

- the text of the input field (`task`);
- the task list (`tasks`), whose records are `{id, text, completed}`;
- the value of the filter select (`filter`).

Three handlers change that state: `addTask`, `removeTask` and
`toggleCompletion`. Each render derives two views from it: `filteredTasks`
(selection by status) and `sortedTasks` (a sorted copy of the selection).

Layout:

- `todo_app.dfy`, module `Todo`: class `TodoApp` has the three state fields.
  The handlers, the two input setters and the loading effect are methods that
  reassign those fields. Each method states the whole new state.
- `tasks.dfy`, module `Tasks`: the `Task` record and the lists the handlers
  install (`Removed`, `Toggled`). Also the views (`Filtered`, `SortedView`) and
  the lemmas about them.
- `sequences.dfy`, module `Sequences`: `Keep`, an order-preserving selection
  that behaves like `Array.prototype.filter`, and its laws.
- `sorting.dfy`, module `Sorting`: a stable insertion sort by a collation key,
  and lexicographic order on keys.
- `text.dfy`, module `Text`: `String.prototype.trim` over the ECMA-262
  WhiteSpace and LineTerminator code points, and the blank test of `addTask`.

Modelling choices:

- `Date.now()` is the `now` parameter of `AddTask`.
- The `alert` for a blank input is the result `accepted == false`. In that
  case the state does not change.
- `a.text.localeCompare(b.text)` is abstracted as comparing collation keys:
  `collate: string -> seq<int>` gives each text a sequence of weights, and
  the keys are compared lexicographically (`LexLe`). Real collations work on
  such sort keys. This makes the comparison a total preorder. Two texts tie
  exactly when their keys are equal (`Sorting.LexLeAntisymmetric`).
- JavaScript's sort has been required to be stable since ECMA-262 2019. The
  model sorts with a stable insertion sort. Stability is stated as follows:
  for every key `k`, the tasks whose key is `k` appear in the same order
  before and after sorting.
- The sort works on a copy (`[...filteredTasks]`). In the model every list is
  a value, so sorting cannot reorder `filteredTasks`.

Behaviour of the code the model keeps:

- Ids come from `Date.now()`. The code does not guarantee they are unique, so
  uniqueness after an add is proved only when `now` is not already an id.
  This is a hypothesis of `AddTask`'s conditional postcondition and a
  precondition of `Tasks.AppendFreshKeepsUnique`.
- `removeTask` removes every task with the id and `toggleCompletion` flips
  every task with the id, not only the first.
- The order is whatever `localeCompare` gives. It is not fixed to a
  case-insensitive order.
- A stored value that is not valid JSON is not recovered from: the code
  does not catch the exception.

## Model

| member | source | states |
|---|---|---|
| Todo.TodoApp.constructor | src/components/TodoApp.jsx:5-7 | The input starts empty, the list starts empty and the filter starts as "all" |
| Todo.TodoApp.Restore | src/components/TodoApp.jsx:9-12 | Loading installs the stored list, or the empty list when the key is absent; the input and the filter do not change |
| Todo.TodoApp.AddTask | src/components/TodoApp.jsx:18-27 | A blank input is rejected and changes nothing. Otherwise exactly one task `{now, untrimmed input, completed: false}` is appended after the unchanged earlier tasks and the input is cleared. The filter never changes. Ids stay unique when `now` is a fresh id |
| Todo.TodoApp.RemoveTask | src/components/TodoApp.jsx:29-31 | The list becomes the filtered list; afterwards no task has the id; unique ids stay unique; input and filter unchanged |
| Todo.TodoApp.ToggleCompletion | src/components/TodoApp.jsx:33-39 | The list becomes the toggled list; unique ids stay unique; input and filter unchanged |
| Todo.TodoApp.SetTask | src/components/TodoApp.jsx:65 | Typing replaces the input and nothing else |
| Todo.TodoApp.SetFilter | src/components/TodoApp.jsx:77 | Choosing a filter replaces the filter and nothing else |
| Text.TrimStart | src/components/TodoApp.jsx:19 | The result is a suffix of the input; every dropped character is trimmable; the result does not start with a trimmable character |
| Text.TrimEnd | src/components/TodoApp.jsx:19 | The result is a prefix of the input; every dropped character is trimmable; the result does not end with a trimmable character |
| Text.BlankIffAllTrimmable | src/components/TodoApp.jsx:19 | `task.trim() === ""` holds exactly when every character is WhiteSpace or LineTerminator; the empty string counts as blank |
| Tasks.AppendFreshKeepsUnique | src/components/TodoApp.jsx:20-25 | Appending a task whose id is not in the list keeps ids unique |
| Sequences.Keep | src/components/TodoApp.jsx:30 | A filter result is no longer than its input and holds only elements that pass the test |
| Tasks.RemovedExactly | src/components/TodoApp.jsx:30 | Removal keeps each task with a different id as often as it occurs and keeps no task with the id, duplicates included |
| Tasks.RemovedInOrder | src/components/TodoApp.jsx:30 | Removal distributes over concatenation, so the remaining tasks keep their relative order |
| Tasks.RemovedAbsent | src/components/TodoApp.jsx:30 | Removing an id that no task has leaves the list unchanged |
| Tasks.RemovedKeepsUnique | src/components/TodoApp.jsx:30 | After removal no task has the id, and unique ids stay unique |
| Tasks.Toggled | src/components/TodoApp.jsx:34-38 | Toggling keeps the length, and at every position the id and the text. `completed` changes exactly where the id matches |
| Tasks.ToggledTwice | src/components/TodoApp.jsx:34-38 | Toggling the same id twice restores the original list |
| Tasks.ToggledAbsent | src/components/TodoApp.jsx:34-38 | Toggling an id that no task has leaves the list unchanged |
| Tasks.ToggledKeepsUnique | src/components/TodoApp.jsx:35-36 | Toggling keeps unique ids unique |
| Tasks.FilteredExactly | src/components/TodoApp.jsx:41-45 | The view holds exactly the tasks the filter shows, with their multiplicity. "completed" shows completed tasks, "pending" shows the others, and any other value shows all |
| Tasks.FilteredInOrder | src/components/TodoApp.jsx:41-45 | The view distributes over concatenation, so it keeps insertion order |
| Tasks.FilteredPartition | src/components/TodoApp.jsx:41-45 | The "completed" and "pending" views have lengths summing to the list's length, and together they hold each task exactly as often as the list does |
| Tasks.ToggledMovesView | src/components/TodoApp.jsx:33-45 | After a task is toggled it is in the view matching its new status and not in the other |
| Sequences.KeepCount | src/components/TodoApp.jsx:41-45 | A filter keeps each passing element as often as it occurs and no other element |
| Sequences.KeepConcat | src/components/TodoApp.jsx:41-45 | A filter of a concatenation is the concatenation of the filters |
| Sequences.KeepSplit | src/components/TodoApp.jsx:41-45 | Filtering by a test and by its negation splits the input in two |
| Sequences.KeepAll | src/components/TodoApp.jsx:30 | Filtering by a test that every element passes changes nothing |
| Sequences.KeepFrom | src/components/TodoApp.jsx:30 | Every element of a filter result is an element of the input |
| Sorting.LexLeReflexive | src/components/TodoApp.jsx:48 | Every collation key is ordered before or equal to itself, so it ties with itself |
| Sorting.LexLeTotal | src/components/TodoApp.jsx:48 | Any two collation keys are comparable |
| Sorting.LexLeTransitive | src/components/TodoApp.jsx:48 | The comparison is transitive |
| Sorting.LexLeAntisymmetric | src/components/TodoApp.jsx:48 | Two keys tie both ways only when they are equal |
| Sorting.Insert | src/components/TodoApp.jsx:47-49 | Inserting adds exactly the one element: the result is a permutation of the input plus it |
| Sorting.SortBy | src/components/TodoApp.jsx:47-49 | The sorted copy is a permutation of its input |
| Sorting.InsertSorted | src/components/TodoApp.jsx:47-49 | Inserting into a sorted sequence gives a sorted sequence |
| Sorting.SortSorted | src/components/TodoApp.jsx:47-49 | The sorted copy is non-decreasing by key |
| Sorting.InsertStable | src/components/TodoApp.jsx:47-49 | The inserted element stays in front of the elements it ties with |
| Sorting.SortStable | src/components/TodoApp.jsx:47-49 | For every key, the elements with that key keep their relative order (stability) |
| Sorting.SortedTiesDetermine | src/components/TodoApp.jsx:47-49 | Two sequences that are sorted by the same key and agree on the order within every class of ties are equal |
| Sorting.StableSortUnique | src/components/TodoApp.jsx:47-49 | Every sequence that is sorted and keeps the relative order of the input's ties is the insertion sort's result, so any stable sort gives the same `sortedTasks` |
| Tasks.SortedViewCorrect | src/components/TodoApp.jsx:47-49 | `sortedTasks` is a permutation of `filteredTasks`, is non-decreasing by the collation key of the text, and keeps the relative order of tasks whose texts tie |

## Left out

- Rendering: the JSX markup, CSS classes and icons (`TodoApp.jsx` lines 51-129). Only the two `onChange` state setters are modelled, as `SetTask` and `SetFilter`.
- The saving effect (lines 14-16) writes `JSON.stringify(tasks)` to `localStorage`. This is browser I/O and is not modelled.
- Todo.TodoApp.Restore: takes the already-parsed stored value. `saved` is None when the key is absent or the stored value is falsy (`null`, `0`, `false`, `""`), which `|| []` turns into the empty list. Two kinds of stored value are outside the model.
  - Values on which the code throws: invalid JSON, where `JSON.parse` throws at line 10; a truthy value that is not an array (`{}`, `1`, `"x"`), where `tasks.filter` throws at line 41; and a record whose `text` is missing or not a string, which can throw at line 48 once the view holds two or more tasks and that record is the first argument `a` of the comparator (as the second argument its `text` is converted to a string and nothing throws).
  - Values the code accepts but the `Task` type excludes: ids that are not integers or not numbers (the comparisons at lines 30 and 36 and `key={t.id}` at line 88 work for string ids too); a `completed` that is missing or not a boolean, which the code reads by truthiness at lines 36, 42 and 43; and extra fields on a record, which `{ ...t }` at line 36 carries along.
- The `alert` call is a UI side effect. Only its outcome is modelled: nothing changes, and `accepted` is false.
- `Date.now()` is a clock. Its value is the `now` parameter, so the model makes no claim that successive ids differ.
- The locale-specific collation inside `localeCompare` (ICU tailoring, case and accent strength) is abstract. It is the `collate` key function.
- The engine's actual sort algorithm is not modelled. Insertion sort stands for it. `Sorting.StableSortUnique` proves that any stable sort by the same order gives the same result.
- React's batching of state updates and the ordering of its effects are not modelled. Each handler is one atomic update of the fields.
- Strings are Dafny strings of Unicode scalar values, not JavaScript's UTF-16 code units. Lone surrogates cannot occur in the model.
