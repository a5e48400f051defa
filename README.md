# To-do list app: the task-list state of `App`, in Dafny

The app is a single-screen React Native to-do list. Its `App` component
keeps four pieces of state:

- `todos`: the displayed view.
- `allTodos`: the copy that mirrors storage.
- `todoText`: the add-input buffer.
- `searchQuery`: the search input.

Four handlers change that state: `addTodo`, `deleteTodo`, `toggleDone` and
`handleSearch`. At start-up, `fetchTodos` loads the list stored under one
key.

Each of the three mutations works the same way:

1. It computes a new array from `todos`.
2. It writes that array to storage.
3. Only if the write succeeds, it sets both `todos` and `allTodos` to the
   new array.

A failed write is logged and changes nothing.

The model has four modules:

- `Seqs` (`seqs.dfy`): the generic list operations the component uses.
  - `Filter` is `Array.prototype.filter`.
  - `Reversed` is `[...xs].reverse()`.
  - `IsSubsequence` is the order-preserving "taken from" relation that
    describes what a filter keeps.
- `Text` (`text.dfy`): the string operations.
  - `Trim` is `String.prototype.trim`, with ECMAScript's own whitespace
    and line-terminator set.
  - `IsBlank` is `!s.trim()`.
  - `ToLower` is `toLowerCase` on ASCII letters.
  - `Contains` is `includes`.
- `Tasks` (`tasks.dfy`): the `ToDoType` record as `Task`, plus the pure
  new-list computations.
  - `NewTask`: the record `addTodo` builds.
  - `WithoutId`: the filter `deleteTodo` applies.
  - `Toggled`: the map `toggleDone` applies.
  - `SearchView`: the list `handleSearch` shows.
  - Lemmas about all of these.
- `TodoApp` (`app.dfy`): the class `App`, with the four state fields and a
  ghost field `persisted`. `persisted` is the collection in storage, as far
  as the component has loaded or written it.
  - Each handler is a method that takes the outcome of its storage write
    (`writeOk`) and, for `addTodo`, the clock reading (`id`) as parameters.
  - The object invariant `Valid()` is kept by every method. It says that
    `allTodos == persisted` and that `todos` is a subsequence of
    `allTodos` (same order, nothing else).
  - `Session` and its three phases step through one use of the app, with
    any titles and any query that matches the second title only:
    - load an empty store;
    - add two tasks;
    - toggle the first;
    - fail a delete;
    - search for the second title;
    - toggle the second task, the only one the search shows.

Where the code does something other than one would expect of it, the model
follows the code:

- The mutations derive their new list from `todos`, the possibly filtered
  view (`app/index.tsx:55`, `:68`, `:79`). They do not use the complete
  `allTodos`. A mutation made while a search is active therefore
  overwrites `allTodos` and storage with only the visible tasks.
  `Tasks.HiddenTaskIsLost` proves that, with unique ids, a hidden task
  leaves no trace of its id in the result. `TodoApp.SessionSearch` shows it
  in a proved scenario: toggling the one visible task leaves `allTodos` and
  storage holding that task alone, though the hidden first task was never
  deleted.
- One would expect the view to be a function of `allTodos` and the search
  text. It is not. After an `addTodo` while a search is active,
  the view shows the new task even when it does not match.
  `TodoApp.AddUnderSearchShowsNonMatch` proves this. For that reason
  `Valid()` claims only that the view is a subsequence of `allTodos`.
- Loading ignores an empty stored string as well as a missing key, because
  the test is `if (data)`.
- Search decides "blank" on the trimmed text. A query made only of spaces
  therefore shows every task. Otherwise it matches the untrimmed text, so
  surrounding spaces in the query count.

## Model

| member | source | states |
|---|---|---|
| `Seqs.Filter` | app/index.tsx:68 | the filter keeps exactly the elements satisfying the predicate, every occurrence of each (multiset equality on kept values, zero on the rest), and is never longer than its input |
| `Seqs.FilterIsSubsequence` | app/index.tsx:96-98 | what a filter keeps stays in its original order (ordered subsequence of the input) |
| `Seqs.FilterKeepsAll` | app/index.tsx:68 | filtering by a predicate every element satisfies returns the same list |
| `Seqs.FilterIdempotent` | app/index.tsx:96-98 | filtering twice by the same predicate equals filtering once |
| `Seqs.FilterDropsOne` | app/index.tsx:68 | if exactly one position fails the predicate, the result is exactly one element shorter |
| `Seqs.SubsequenceReflexive` | app/index.tsx:58-59 | a list is a subsequence of itself (the view equals `allTodos` after every successful mutation) |
| `Seqs.SubsequenceMembers` | app/index.tsx:96-98 | every element of a subsequence occurs in the list it was taken from |
| `Seqs.Reversed` | app/index.tsx:163 | the display list has the same length, and position k holds element n-1-k of `todos` |
| `Seqs.ReversedTwice` | app/index.tsx:163 | reversing the displayed copy again gives back the stored order |
| `Seqs.ReversedAppend` | app/index.tsx:163 | the task appended last is displayed first (newest first) |
| `Text.TrimStart` | app/index.tsx:49 | the result is a suffix of the input; every dropped character is whitespace; the result does not start with whitespace |
| `Text.TrimEnd` | app/index.tsx:49 | the result is a prefix of the input; every dropped character is whitespace; the result does not end with whitespace |
| `Text.Trim` | app/index.tsx:52 | the trimmed title is no longer than the input and neither starts nor ends with whitespace |
| `Text.TrimStrips` | app/index.tsx:49-52 | the trimmed string is the slice of the input that starts at some index `a`, where every character before `a` and every character after the slice is whitespace |
| `Text.IsBlank` | app/index.tsx:49 | `!text.trim()`: the trimmed text is empty; `Text.BlankIffAllWhitespace` states what that means |
| `Text.BlankIffAllWhitespace` | app/index.tsx:49 | `!text.trim()` holds exactly when every character of the text is whitespace (the empty text included) |
| `Text.TrimIdempotent` | app/index.tsx:52 | a stored title is already in trimmed form: trimming it again changes nothing |
| `Text.ToLower` | app/index.tsx:97 | lowercasing keeps the length and maps every character through ASCII lowercase |
| `Text.ToLowerIdempotent` | app/index.tsx:97 | lowercasing twice equals lowercasing once |
| `Text.Contains` | app/index.tsx:97 | `includes`; `Text.ContainsIff` states exactly when it holds |
| `Text.ContainsIff` | app/index.tsx:97 | `includes` holds exactly when the query occurs as a contiguous slice at some index |
| `Tasks.NewTask` | app/index.tsx:50-54 | the `newTodo` record `addTodo` builds; `Tasks.NewTaskTitle` states its id, done flag and title |
| `Tasks.NewTaskTitle` | app/index.tsx:49-54 | the new task carries the given id and is not done; for a non-blank input its title is non-empty and already in trimmed form |
| `Tasks.AppendFreshKeepsUniqueIds` | app/index.tsx:55 | appending a task with an id no task carries keeps ids unique |
| `Tasks.WithoutId` | app/index.tsx:68 | after delete, a task is in the result exactly when it was in the list and has another id; no task with the id is left |
| `Tasks.WithoutIdKeepsRest` | app/index.tsx:68 | delete keeps the order of the remaining tasks and every occurrence of each task with another id |
| `Tasks.WithoutAbsentId` | app/index.tsx:68 | deleting an id no task carries returns the list unchanged |
| `Tasks.WithoutPresentId` | app/index.tsx:68 | with unique ids, deleting an id that is present shortens the list by exactly one |
| `Tasks.Flip` | app/index.tsx:80-81 | the `map` callback of `toggleDone`; the contract of `Tasks.Toggled` states its effect at every position |
| `Tasks.Toggled` | app/index.tsx:79-81 | toggle keeps length, order, ids and titles, and inverts the done flag exactly at positions whose id equals the given id |
| `Tasks.ToggledTwice` | app/index.tsx:79-81 | toggling the same id twice gives back the original list |
| `Tasks.ToggledAbsentId` | app/index.tsx:79-81 | toggling an id no task carries changes nothing |
| `Tasks.ToggledKeepsUniqueIds` | app/index.tsx:79-81 | toggling keeps ids unique |
| `Tasks.SubsequenceKeepsUniqueIds` | app/index.tsx:68 | a list taken in order from a list with unique ids has unique ids |
| `Tasks.WithoutIdKeepsUniqueIds` | app/index.tsx:68 | deleting keeps ids unique |
| `Tasks.TitleMatches` | app/index.tsx:97 | the search filter's test: the lowercased title includes the lowercased query; `Tasks.SearchView` states how it selects the view |
| `Tasks.SearchView` | app/index.tsx:93-99 | a blank query shows all of `allTodos`; otherwise a task is shown exactly when it is in `allTodos` and its lowercased title includes the lowercased, untrimmed query |
| `Tasks.SearchViewKeepsMatches` | app/index.tsx:96-98 | the search view keeps the order of `allTodos` and every occurrence of each matching task |
| `Tasks.SearchViewIdempotent` | app/index.tsx:91-100 | searching the search view again with the same text gives the same view |
| `Tasks.EmptySearchShowsAll` | app/index.tsx:93-94 | the empty query shows every task |
| `Tasks.HiddenTaskIsLost` | app/index.tsx:55-85 | with unique ids, a task the view hides leaves no task with its id in the list that delete, toggle or add computes from the view |
| `TodoApp.App.Displayed` | app/index.tsx:163 | the rendered list is `todos` in reverse order, position by position |
| `TodoApp.App.constructor` | app/index.tsx:27-30 | all four state values start empty; the invariant holds |
| `TodoApp.App.Load` | app/index.tsx:33-44 | only a stored value that is present, non-empty and parses becomes `todos`, `allTodos` and the known stored value; otherwise nothing changes; the inputs are untouched |
| `TodoApp.App.SetTodoText` | app/index.tsx:184 | typing replaces the add-input buffer and nothing else |
| `TodoApp.App.AddTodo` | app/index.tsx:48-65 | a blank input or a failed write changes nothing; otherwise `todos`, `allTodos` and storage all become the old view plus the new task, and the input is cleared; the search text is kept; the invariant holds |
| `TodoApp.App.DeleteTodo` | app/index.tsx:67-76 | a failed write changes nothing; otherwise `todos`, `allTodos` and storage all become `WithoutId` of the old view; the inputs are kept; the invariant holds |
| `TodoApp.App.ToggleDone` | app/index.tsx:78-89 | a failed write changes nothing; otherwise `todos`, `allTodos` and storage all become `Toggled` of the old view; the inputs are kept; the invariant holds |
| `TodoApp.App.HandleSearch` | app/index.tsx:91-101 | records the query and sets the view to `SearchView(allTodos, text)`; leaves `allTodos`, storage and the add-input alone; the invariant holds |
| `TodoApp.SearchTwice` | app/index.tsx:91-101 | two identical searches in a row leave the same state as one |
| `TodoApp.AddUnderSearchShowsNonMatch` | app/index.tsx:55 | appending a task that does not match a non-blank query yields a list that differs from its own search view |
| `TodoApp.SessionAdd` | app/index.tsx:48-65 | from a fresh component and an empty store, two adds give `[first, second]` in memory, and the input is empty again |
| `TodoApp.SessionToggle` | app/index.tsx:78-89 | toggling the first task flips only its flag; a delete whose write fails leaves the list as it was |
| `TodoApp.SessionSearch` | app/index.tsx:78-101 | searching for the second task and then toggling it leaves only the toggled second task in the view, in `allTodos` and in storage: the hidden first task is gone without being deleted |

## Left out

- AsyncStorage `getItem` and `setItem` are asynchronous foreign I/O.
  - Each write is the `writeOk` parameter of its method.
  - The store is the ghost field `persisted`.
  - A failed write is taken to leave the store as it was.
  - A failed read is folded into `Load`'s `data = None`, just like a
    missing key: the source catches the error, logs it and changes
    nothing.
- `JSON.stringify` and `JSON.parse` are library serialisation.
  - The stored collection is the `seq<Task>` itself.
  - The outcome of parsing is `Load`'s `parsed` parameter, with `None`
    for a parse that throws.
  - JSON that parses to something other than a task array is not
    modelled.
  - The stringify/parse round trip is therefore not a proved property. It
    holds here only because the stored value is the collection itself.
- `Date.now()` is a clock. Its reading is `AddTodo`'s `id` parameter.
- JavaScript numbers are doubles. The model uses unbounded `int` ids; only
  their equality matters here.
- Strings are Dafny `string`s, sequences of Unicode scalar values, while
  JavaScript strings are sequences of UTF-16 code units. `trim`, `includes`
  and ASCII lowercasing agree on well-formed text, but a lone surrogate
  cannot be represented.
- `toLowerCase` is modelled on ASCII letters only. Full Unicode case
  mapping, which can change a string's length, is not.
- Async interleaving is not modelled. This includes two mutations issued
  before the first write completes, and the stale-closure lost update that
  follows from it. Every handler runs to completion, one after another.
- `Load`: that `fetchTodos` runs once, at mount (the empty dependency list
  of `useEffect`), is not enforced. Any call is allowed.
- `console.error` logging, `Keyboard.dismiss`, and all rendering and
  platform code are not modelled. This covers `ToDoItem`, `FlatList`,
  `Checkbox`, `Ionicons`, `Image`, `KeyboardAvoidingView`, the menu
  `alert`, the empty avatar handler and the `styles` sheet. Of the
  rendering, only the reversal of `todos` for display is modelled, as
  `App.Displayed`.
