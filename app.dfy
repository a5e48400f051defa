/**
 The state of the `App` component and the handlers that change it.
 Each mutation derives its new list from `todos`, the displayed (possibly
 filtered) view, attempts the storage write, and only when the write
 succeeds sets both lists to the new one.
 */
module TodoApp {
  import opened Seqs
  import opened Text
  import opened Tasks

  datatype Option<T> = None | Some(value: T)

  class App {
    /** The displayed view. */
    var todos: seq<Task>
    /** The in-memory copy of what was last loaded or written. */
    var allTodos: seq<Task>
    /** The add-input buffer. */
    var todoText: string
    /** The search-input text. */
    var searchQuery: string
    /** The collection that storage holds under the single key, as far as
        this component has loaded or written it. */
    ghost var persisted: seq<Task>

    /** `allTodos` mirrors storage, and the view only ever shows, in order,
        tasks taken from `allTodos`. */
    ghost predicate Valid()
      reads this
    {
      allTodos == persisted && IsSubsequence(todos, allTodos)
    }

    /** The list as rendered: `[...todos].reverse()`, newest first. */
    function Displayed(): (d: seq<Task>)
      reads this
      ensures |d| == |todos|
      ensures forall k :: 0 <= k < |todos| ==> d[k] == todos[|todos| - 1 - k]
    {
      Reversed(todos)
    }

    /** The four `useState` initial values. */
    constructor ()
      ensures Valid()
      ensures todos == [] && allTodos == [] && todoText == "" && searchQuery == ""
      ensures persisted == []
    {
      todos, allTodos, todoText, searchQuery := [], [], "", "";
      persisted := [];
    }

    /** `fetchTodos`: `data` is what `getItem` delivered (`None` for a missing
        key or a failed read) and `parsed` the outcome of parsing it (`None`
        when parsing throws). Only a present, non-empty, parseable value is
        adopted, by both lists; otherwise nothing changes. */
    method Load(data: Option<string>, parsed: Option<seq<Task>>)
      requires Valid()
      modifies this
      ensures Valid()
      ensures todoText == old(todoText) && searchQuery == old(searchQuery)
      ensures data.Some? && data.value != "" && parsed.Some? ==>
        todos == allTodos == persisted == parsed.value
      ensures !(data.Some? && data.value != "" && parsed.Some?) ==>
        todos == old(todos) && allTodos == old(allTodos) && persisted == old(persisted)
    {
      if data.Some? && data.value != "" {
        if parsed.Some? {
          SubsequenceReflexive(parsed.value);
          todos, allTodos := parsed.value, parsed.value;
          persisted := parsed.value;
        }
      }
    }

    /** `onChangeText={setTodoText}` on the add-input. */
    method SetTodoText(text: string)
      requires Valid()
      modifies this
      ensures Valid()
      ensures todoText == text
      ensures todos == old(todos) && allTodos == old(allTodos) && searchQuery == old(searchQuery)
      ensures persisted == old(persisted)
    {
      todoText := text;
    }

    /** `addTodo`, with `id` the clock reading and `writeOk` the outcome of
        the storage write. A blank input changes nothing and writes nothing. */
    method AddTodo(id: int, writeOk: bool)
      requires Valid()
      modifies this
      ensures Valid()
      ensures searchQuery == old(searchQuery)
      ensures IsBlank(old(todoText)) || !writeOk ==>
        todos == old(todos) && allTodos == old(allTodos) &&
        todoText == old(todoText) && persisted == old(persisted)
      ensures !IsBlank(old(todoText)) && writeOk ==>
        todos == allTodos == persisted == old(todos) + [NewTask(id, old(todoText))] &&
        todoText == ""
    {
      if IsBlank(todoText) {
        return;
      }
      var updated := todos + [NewTask(id, todoText)];
      if writeOk {
        SubsequenceReflexive(updated);
        todos, allTodos, todoText := updated, updated, "";
        persisted := updated;
      }
    }

    /** `deleteTodo(id)`: on a successful write both lists become the view
        without the tasks carrying `id`. */
    method DeleteTodo(id: int, writeOk: bool)
      requires Valid()
      modifies this
      ensures Valid()
      ensures todoText == old(todoText) && searchQuery == old(searchQuery)
      ensures !writeOk ==>
        todos == old(todos) && allTodos == old(allTodos) && persisted == old(persisted)
      ensures writeOk ==> todos == allTodos == persisted == WithoutId(old(todos), id)
    {
      var filtered := WithoutId(todos, id);
      if writeOk {
        SubsequenceReflexive(filtered);
        todos, allTodos := filtered, filtered;
        persisted := filtered;
      }
    }

    /** `toggleDone(id)`: on a successful write both lists become the view
        with the done flag of the tasks carrying `id` inverted. */
    method ToggleDone(id: int, writeOk: bool)
      requires Valid()
      modifies this
      ensures Valid()
      ensures todoText == old(todoText) && searchQuery == old(searchQuery)
      ensures !writeOk ==>
        todos == old(todos) && allTodos == old(allTodos) && persisted == old(persisted)
      ensures writeOk ==> todos == allTodos == persisted == Toggled(old(todos), id)
    {
      var updated := Toggled(todos, id);
      if writeOk {
        SubsequenceReflexive(updated);
        todos, allTodos := updated, updated;
        persisted := updated;
      }
    }

    /** `handleSearch(text)`: records the query and recomputes the view from
        `allTodos`, which, like storage and the add-input, it leaves alone. */
    method HandleSearch(text: string)
      requires Valid()
      modifies this
      ensures Valid()
      ensures searchQuery == text
      ensures todos == SearchView(allTodos, text)
      ensures allTodos == old(allTodos) && persisted == old(persisted) && todoText == old(todoText)
    {
      var view := SearchView(allTodos, text);
      SearchViewKeepsMatches(allTodos, text);
      searchQuery, todos := text, view;
    }
  }

  /** Two identical searches in a row leave the component as one does. */
  method SearchTwice(app: App, text: string)
    requires app.Valid()
    modifies app
    ensures app.Valid()
    ensures app.todos == SearchView(old(app.allTodos), text) && app.searchQuery == text
    ensures app.allTodos == old(app.allTodos) && app.todoText == old(app.todoText)
  {
    app.HandleSearch(text);
    ghost var once := app.todos;
    app.HandleSearch(text);
    assert app.todos == once;
  }

  /** Adding a task while a search is active shows it even when it does not
      match the query: after `addTodo` the view is no longer the search view
      of `allTodos` for the current query. */
  lemma AddUnderSearchShowsNonMatch(view: seq<Task>, added: Task, query: string)
    requires !IsBlank(query) && !TitleMatches(added, query)
    ensures SearchView(view + [added], query) != view + [added]
  {
    assert added in view + [added];
  }

  /** Load from an empty store and add two tasks. */
  method SessionAdd(first: string, second: string) returns (app: App)
    requires !IsBlank(first) && !IsBlank(second)
    ensures fresh(app) && app.Valid() && app.searchQuery == "" && app.todoText == ""
    ensures app.todos == app.allTodos == [NewTask(1, first), NewTask(2, second)]
  {
    var a, b := NewTask(1, first), NewTask(2, second);
    app := new App();
    app.Load(None, None);
    app.SetTodoText(first);
    app.AddTodo(1, true);
    assert app.todos == [a];
    app.SetTodoText(second);
    app.AddTodo(2, true);
    assert app.todos == [a] + [b];
  }

  /** Toggle the first task; a delete whose write then fails changes nothing. */
  method SessionToggle(app: App, a: Task, b: Task)
    requires app.Valid() && app.todos == app.allTodos == [a, b]
    requires a.id == 1 && b.id == 2
    modifies app
    ensures app.Valid() && app.searchQuery == old(app.searchQuery)
    ensures app.todos == app.allTodos == [a.(isDone := !a.isDone), b]
  {
    app.ToggleDone(1, true);
    app.DeleteTodo(2, false);
  }

  /** Search for the second task, then toggle it: the first task, which the
      search hides, is gone from memory and storage without being deleted. */
  method SessionSearch(app: App, a: Task, b: Task, query: string)
    requires app.Valid() && app.todos == app.allTodos == [a, b]
    requires a.id == 1 && b.id == 2
    requires !IsBlank(query) && !TitleMatches(a, query) && TitleMatches(b, query)
    modifies app
    ensures app.Valid() && app.searchQuery == query
    ensures app.todos == app.allTodos == app.persisted == [b.(isDone := !b.isDone)]
  {
    ghost var p := (t: Task) => TitleMatches(t, query);
    assert [a, b][1..] == [b] && [b][1..] == [];
    assert Filter([a, b], p) == [b] + Filter([], p);
    assert SearchView([a, b], query) == [b];
    assert Toggled([b], 2) == [b.(isDone := !b.isDone)];
    app.HandleSearch(query);
    app.ToggleDone(2, true);
  }

  /** A whole session. The titles and the query are any for which the query
      matches the second title only. */
  method Session(first: string, second: string, query: string)
    requires !IsBlank(first) && !IsBlank(second) && !IsBlank(query)
    requires !TitleMatches(Task(1, Trim(first), true), query)
    requires TitleMatches(Task(2, Trim(second), false), query)
  {
    var app := SessionAdd(first, second);
    var a, b := NewTask(1, first), NewTask(2, second);
    // Newest first on screen.
    assert Reversed([a, b]) == [b, a] by { assert [a, b] == [a] + [b]; ReversedAppend([a], b); }
    assert app.Displayed() == [b, a];
    SessionToggle(app, a, b);
    SessionSearch(app, a.(isDone := true), b, query);
    assert app.Displayed() == [b.(isDone := true)];
  }
}
