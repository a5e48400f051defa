/**
 The to-do record and the new-list computations of the `App` component:
 the filter that deletes, the map that toggles, and the search filter.
 */
module Tasks {
  import opened Seqs
  import opened Text

  /** A to-do entry: a numeric id (a creation timestamp), its title and whether it is done. */
  datatype Task = Task(id: int, title: string, isDone: bool)

  /** No two positions of `ts` hold the same id. */
  predicate UniqueIds(ts: seq<Task>)
  {
    forall i, j :: 0 <= i < j < |ts| ==> ts[i].id != ts[j].id
  }

  /** Some task of `ts` carries `id`. */
  predicate HasId(ts: seq<Task>, id: int)
  {
    exists t :: t in ts && t.id == id
  }

  /** The task entered in the add-input: `{ id, title: todoText.trim(), isDone: false }`. */
  function NewTask(id: int, text: string): Task
  {
    Task(id, Trim(text), false)
  }

  /** A task added from a non-blank input has a non-empty title already in
      trimmed form; it carries the given id and starts not done. */
  lemma NewTaskTitle(id: int, text: string)
    ensures NewTask(id, text).id == id && !NewTask(id, text).isDone
    ensures !IsBlank(text) ==> NewTask(id, text).title != [] && Trim(NewTask(id, text).title) == NewTask(id, text).title
  {
  }

  // ---------------------------------------------------------------- delete

  /** `ts.filter((todo) => todo.id !== id)`. */
  function WithoutId(ts: seq<Task>, id: int): (r: seq<Task>)
    ensures forall t :: t in r <==> t in ts && t.id != id
    ensures !HasId(r, id)
  {
    Filter(ts, (t: Task) => t.id != id)
  }

  /** Delete keeps every other task, in order, each occurrence of it. */
  lemma WithoutIdKeepsRest(ts: seq<Task>, id: int)
    ensures IsSubsequence(WithoutId(ts, id), ts)
    ensures forall t: Task :: t.id != id ==> multiset(WithoutId(ts, id))[t] == multiset(ts)[t]
  {
    FilterIsSubsequence(ts, (t: Task) => t.id != id);
  }

  /** Deleting an id nobody carries leaves the list as it was. */
  lemma WithoutAbsentId(ts: seq<Task>, id: int)
    requires !HasId(ts, id)
    ensures WithoutId(ts, id) == ts
  {
    FilterKeepsAll(ts, (t: Task) => t.id != id);
  }

  /** With unique ids, deleting a present id removes exactly one task. */
  lemma WithoutPresentId(ts: seq<Task>, id: int)
    requires UniqueIds(ts) && HasId(ts, id)
    ensures |WithoutId(ts, id)| == |ts| - 1
  {
    var t :| t in ts && t.id == id;
    var i :| 0 <= i < |ts| && ts[i] == t;
    FilterDropsOne(ts, (t: Task) => t.id != id, i);
  }

  /** A list taken in order from a list with unique ids has unique ids. */
  lemma {:induction false} SubsequenceKeepsUniqueIds(a: seq<Task>, b: seq<Task>)
    requires IsSubsequence(a, b) && UniqueIds(b)
    ensures UniqueIds(a)
    decreases |b|
  {
    if a != [] {
      assert UniqueIds(b[1..]) by {
        forall i, j | 0 <= i < j < |b[1..]| ensures b[1..][i].id != b[1..][j].id {
          assert b[1..][i] == b[i + 1] && b[1..][j] == b[j + 1];
        }
      }
      if a[0] == b[0] && IsSubsequence(a[1..], b[1..]) {
        SubsequenceKeepsUniqueIds(a[1..], b[1..]);
        SubsequenceMembers(a[1..], b[1..]);
        forall i, j | 0 <= i < j < |a| ensures a[i].id != a[j].id {
          assert a[j] == a[1..][j - 1];
          if i == 0 {
            assert a[j] in a[1..];
            var k :| 0 <= k < |b[1..]| && b[1..][k] == a[j];
            assert b[k + 1] == a[j];
          } else {
            assert a[i] == a[1..][i - 1];
          }
        }
      } else {
        SubsequenceKeepsUniqueIds(a, b[1..]);
      }
    }
  }

  /** Deleting keeps ids unique. */
  lemma WithoutIdKeepsUniqueIds(ts: seq<Task>, id: int)
    requires UniqueIds(ts)
    ensures UniqueIds(WithoutId(ts, id))
  {
    WithoutIdKeepsRest(ts, id);
    SubsequenceKeepsUniqueIds(WithoutId(ts, id), ts);
  }

  // ---------------------------------------------------------------- toggle

  /** `todo.id === id ? { ...todo, isDone: !todo.isDone } : todo`. */
  function Flip(t: Task, id: int): Task
  {
    if t.id == id then t.(isDone := !t.isDone) else t
  }

  /** `ts.map(...)` with `Flip`: same positions, ids and titles; only the
      done flag of the tasks carrying `id` is inverted. */
  function Toggled(ts: seq<Task>, id: int): (r: seq<Task>)
    ensures |r| == |ts|
    ensures forall i :: 0 <= i < |ts| ==>
      r[i].id == ts[i].id && r[i].title == ts[i].title &&
      (r[i].isDone <==> (if ts[i].id == id then !ts[i].isDone else ts[i].isDone))
  {
    if ts == [] then [] else [Flip(ts[0], id)] + Toggled(ts[1..], id)
  }

  /** Toggling the same id twice gives back the original list. */
  lemma ToggledTwice(ts: seq<Task>, id: int)
    ensures Toggled(Toggled(ts, id), id) == ts
  {
  }

  /** Toggling an id nobody carries changes nothing. */
  lemma ToggledAbsentId(ts: seq<Task>, id: int)
    requires !HasId(ts, id)
    ensures Toggled(ts, id) == ts
  {
  }

  /** Toggling keeps ids unique. */
  lemma ToggledKeepsUniqueIds(ts: seq<Task>, id: int)
    requires UniqueIds(ts)
    ensures UniqueIds(Toggled(ts, id))
  {
  }

  // ---------------------------------------------------------------- add

  /** Appending a task with a fresh id keeps ids unique. */
  lemma AppendFreshKeepsUniqueIds(ts: seq<Task>, t: Task)
    requires UniqueIds(ts) && !HasId(ts, t.id)
    ensures UniqueIds(ts + [t])
  {
  }

  // ---------------------------------------------------------------- search

  /** `todo.title.toLowerCase().includes(text.toLowerCase())`. */
  predicate TitleMatches(t: Task, text: string)
  {
    Contains(ToLower(t.title), ToLower(text))
  }

  /** The list `handleSearch(text)` displays: all tasks when `text` trims to
      nothing, otherwise those whose title contains `text` (untrimmed),
      ignoring ASCII case. */
  function SearchView(all: seq<Task>, text: string): (r: seq<Task>)
    ensures IsBlank(text) ==> r == all
    ensures !IsBlank(text) ==> forall t :: t in r <==> t in all && TitleMatches(t, text)
  {
    if IsBlank(text) then all else Filter(all, (t: Task) => TitleMatches(t, text))
  }

  /** The search view keeps the order of `all`, and every occurrence of each matching task. */
  lemma SearchViewKeepsMatches(all: seq<Task>, text: string)
    ensures IsSubsequence(SearchView(all, text), all)
    ensures forall t :: TitleMatches(t, text) ==> multiset(SearchView(all, text))[t] == multiset(all)[t]
  {
    if IsBlank(text) {
      SubsequenceReflexive(all);
    } else {
      FilterIsSubsequence(all, (t: Task) => TitleMatches(t, text));
    }
  }

  /** Searching the search view again with the same text shows the same list. */
  lemma SearchViewIdempotent(all: seq<Task>, text: string)
    ensures SearchView(SearchView(all, text), text) == SearchView(all, text)
  {
    if !IsBlank(text) {
      FilterIdempotent(all, (t: Task) => TitleMatches(t, text));
    }
  }

  /** The empty query shows every task. */
  lemma EmptySearchShowsAll(all: seq<Task>)
    ensures SearchView(all, "") == all
  {
  }

  // ---------------------------------------------------------------- view-based mutations

  /** A task hidden by the search view vanishes from the list a mutation
      computes from that view: no task with its id is left, whether the
      mutation deletes, toggles, or appends a task with another id. */
  lemma HiddenTaskIsLost(all: seq<Task>, view: seq<Task>, hidden: Task, id: int, added: Task)
    requires UniqueIds(all) && IsSubsequence(view, all)
    requires hidden in all && hidden !in view && added.id != hidden.id
    ensures !HasId(WithoutId(view, id), hidden.id)
    ensures !HasId(Toggled(view, id), hidden.id)
    ensures !HasId(view + [added], hidden.id)
  {
    SubsequenceMembers(view, all);
    assert !HasId(view, hidden.id) by {
      forall t | t in view ensures t.id != hidden.id {
        var i :| 0 <= i < |all| && all[i] == t;
        var j :| 0 <= j < |all| && all[j] == hidden;
      }
    }
    var r := Toggled(view, id);
    forall t | t in r ensures t.id != hidden.id {
      var i :| 0 <= i < |r| && r[i] == t;
      assert view[i] in view;
    }
  }
}
