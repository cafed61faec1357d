# Task manager store, modelled in Dafny

The system is a small command-line to-do list. Its tasks live in a JSON
file. Each of its four commands (add, view, mark complete, remove) reads
the whole file first. Add and remove then always write the whole list
back. Mark complete writes only when a task with the given id was found.
View never writes. This project models that logic and proves what each
command does to the stored list.

- `wrappers.dfy`: module `Wrappers`, the `Option` type. A task id typed by
  the user is an `Option<int>`; `None` stands for the `NaN` that `parseInt`
  returns for non-numeric input, and it matches no task.
- `tasks.dfy`: module `Tasks`, the `Task` record (`id`, `description`,
  `completed`) and the pure parts of the commands: the next id (`NextId`),
  the first-match lookup (`FindIndex`), the filter (`Without`), plus the
  lemmas about ids.
- `store.dfy`: module `Store`, the class `TaskStore`. Its `file` field is
  the tasks file: `Missing`, `Unparseable` or `Json(tasks)`. Its `writes`
  field counts how often the file was written. The methods `ReadTasks`,
  `SaveTasks`, `AddTask`, `ViewTasks`, `MarkTaskComplete` and `RemoveTask`
  follow the functions of the same names in `index.js`. `Scenarios` builds
  example stores whose contents the verifier checks against the contracts.

Two definitions are used throughout the contracts. `Tasks.Matches` is the
strict equality between a task's id and the typed id; `None` (NaN) matches
no task. `Store.TaskStore.Current` is the list a read of the file gives:
the parsed tasks, or no tasks when the file is missing or unparseable.

The invariant that holds across the commands is `IdsIncreasing`: each id is
smaller than the id after it. Every mutating command keeps it, and it
implies that ids are pairwise distinct (`IdsDistinct`).

Two facts about ids and descriptions:
- A new id is the last task's id plus one (`index.js:33`), not the largest
  id plus one. `NextIdIsMaxPlusOne` shows the two agree while ids increase.
  `IdReused` shows an id can be handed out twice: add a task, remove it,
  add another, and the second task gets the same id.
- The description may be any string, including the empty one.

## Model

| member | source | states |
|---|---|---|
| Store.TaskStore.ReadTasks | index.js:15-22 | a missing or unparseable file reads as the empty list; a parsed file reads as its tasks |
| Store.TaskStore.SaveTasks | index.js:25-27 | the file is replaced by exactly the given list, and one write happens |
| Store.TaskStore.AddTask | index.js:30-40 | the new list is the old list plus one pending task at the end, with the description as given; its id is 1 on an empty list and otherwise the last id plus 1; the file is written once; increasing ids stay increasing |
| Store.TaskStore.ViewTasks | index.js:43-53 | the "no tasks" notice appears exactly when the list is empty; otherwise there is one row per task, in order, with that task's id and description, and status Completed exactly when the task is completed; nothing is written |
| Store.TaskStore.MarkTaskComplete | index.js:56-66 | found exactly when some task has the id (never for NaN); if found, only the first such task changes, it becomes completed with its id and description kept, and the file is written once; if not found, the file and the write count are unchanged; increasing ids stay increasing |
| Store.TaskStore.RemoveTask | index.js:69-74 | the new list is the old list without the matching tasks; every non-matching task is kept; with no match (or NaN) the content is unchanged; the file is still written once; increasing ids stay increasing |
| Tasks.FindIndex | index.js:58 | gives the position of the first matching task, no earlier task matches, and None exactly when no task matches |
| Tasks.FirstMatchIsOnly | index.js:58-60 | with increasing ids the task `find` picks is the only task with that id |
| Tasks.MarkedAt | index.js:60 | the task at the position becomes completed with its id and description kept; the length, the order and every other task are unchanged; increasing ids stay increasing |
| Tasks.Without | index.js:71 | the kept tasks all come from the input and none matches; they are a sublist of the input in the original order; with no matching task the list is unchanged |
| Tasks.WithoutCounts | index.js:71 | each non-matching task keeps all its copies, and each matching task keeps none |
| Tasks.WithoutUnique | index.js:71 | any order-preserving sublist that keeps exactly the non-matching tasks equals the filter's result |
| Tasks.WithoutIdempotent | index.js:71 | removing the same id twice leaves the same list as removing it once |
| Tasks.WithoutIncreasing | index.js:71 | removing tasks keeps ids increasing |
| Tasks.Added | index.js:32-37 | the old tasks stay in front and unchanged, and one more task follows with id NextId (last id + 1, or 1), the description as given and not completed; increasing ids stay increasing |
| Tasks.IncreasingOrdered | index.js:33 | with increasing ids, an earlier task always has a smaller id than a later one |
| Tasks.IncreasingDistinct | index.js:33 | increasing ids are pairwise distinct |
| Tasks.NextId | index.js:33 | the id is 1 on an empty list; while ids increase it is larger than every id in the list |
| Tasks.LastIsLargest | index.js:33 | while ids increase, no task has a larger id than the last one |
| Tasks.MaxId | index.js:33 | the largest id of a non-empty list: it is some task's id and no id exceeds it |
| Tasks.NextIdIsMaxPlusOne | index.js:33 | with increasing ids, the last id plus one equals the largest id plus one |
| Tasks.IdReused | index.js:33 | adding a task, removing it by its id and adding again hands out the same id twice |
| Tasks.AddAll | index.js:30-40 | repeated adds keep the old tasks in front and append, for the k-th description, the pending task with that description and id NextId of the old list plus k, on any starting list; increasing ids stay increasing |
| Tasks.AddAllFromEmpty | index.js:30-40 | starting from no tasks, adding d1..dn gives exactly n pending tasks with ids 1..n in order, and the ids are increasing |

## Left out

- The interactive menu, the `readline` prompts and the callback chaining
  (`index.js:77-117`): they are input handling around the four commands.
  The model takes the typed description as a string and the typed id as
  the result of `parseInt`.
- `parseInt` itself: its result is modelled as `Option<int>`, with `None`
  for `NaN`.
- The file system calls and the file path. The file is the `file` field.
  The `writes` field stands for the observable fact that a write happened.
- JSON text: `JSON.parse` and `JSON.stringify` with the 2-space layout are
  library calls. Saving and then reading is taken as the identity on the
  list. The model has no state for a file whose JSON is not a list of
  task records with integer ids. The source's behaviour on such a file is
  not modelled: most commands throw a TypeError, and view prints the
  no-tasks notice when the value's `length` is 0.
- Write failures of `writeFileSync`: in the code they throw out of the
  command. The model's writes always succeed.
- Console messages: their text, including number formatting, is not
  modelled. `MarkTaskComplete` returns whether a task was found, which
  decides between its two messages. `ViewTasks` returns the rows or the
  "no tasks" notice.
- NextId: ids are JavaScript numbers (doubles), so `id + 1` stops growing
  above 2^53. The model uses unbounded integers and does not capture that
  rounding.
