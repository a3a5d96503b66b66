/** The task list of the to-do widget and the new lists its handlers install:
    removal by id, toggling by id, the status filter and the sorted view. */
module Tasks {
  import opened Sequences
  import opened Sorting

  /** One to-do item. `id` is the creation timestamp in milliseconds. */
  datatype Task = Task(id: int, text: string, completed: bool)

  /** No two tasks of `ts` share an id. */
  predicate UniqueIds(ts: seq<Task>)
  {
    forall i, j | 0 <= i < j < |ts| :: ts[i].id != ts[j].id
  }

  /** `id` is the id of no task of `ts`. */
  predicate IdAbsent(ts: seq<Task>, id: int)
  {
    forall i | 0 <= i < |ts| :: ts[i].id != id
  }

  /** Appending a task whose id is not yet used keeps the ids unique. The
      timestamp id does not guarantee freshness, so this is a precondition. */
  lemma AppendFreshKeepsUnique(ts: seq<Task>, t: Task)
    requires UniqueIds(ts) && IdAbsent(ts, t.id)
    ensures UniqueIds(ts + [t])
  {
  }

  // ---------------------------------------------------------------- removeTask

  /** The test `t.id !== id`. */
  function OtherId(id: int): Task -> bool
  {
    (t: Task) => t.id != id
  }

  /** `tasks.filter((t) => t.id !== id)`. */
  function Removed(ts: seq<Task>, id: int): (r: seq<Task>)
  {
    Keep(ts, OtherId(id))
  }

  /** Removal keeps every task whose id differs, as often as it occurs, and
      drops every task with the id, duplicates included. */
  lemma RemovedExactly(ts: seq<Task>, id: int, t: Task)
    ensures multiset(Removed(ts, id))[t] == if t.id != id then multiset(ts)[t] else 0
  {
    KeepCount(ts, OtherId(id), t);
  }

  /** Removal keeps the relative order of the remaining tasks: removing from a
      concatenation removes from each part in place. */
  lemma RemovedInOrder(a: seq<Task>, b: seq<Task>, id: int)
    ensures Removed(a + b, id) == Removed(a, id) + Removed(b, id)
  {
    KeepConcat(a, b, OtherId(id));
  }

  /** Removing an id no task has changes nothing. */
  lemma RemovedAbsent(ts: seq<Task>, id: int)
    requires IdAbsent(ts, id)
    ensures Removed(ts, id) == ts
  {
    KeepAll(ts, OtherId(id));
  }

  /** After removal no task has the id, and the remaining ids stay unique. */
  lemma {:induction false} RemovedKeepsUnique(ts: seq<Task>, id: int)
    requires UniqueIds(ts)
    ensures IdAbsent(Removed(ts, id), id)
    ensures UniqueIds(Removed(ts, id))
  {
    if ts != [] {
      var rest := Removed(ts[1..], id);
      RemovedKeepsUnique(ts[1..], id);
      if ts[0].id != id {
        assert Removed(ts, id) == [ts[0]] + rest;
        forall j | 0 <= j < |rest|
          ensures rest[j].id != ts[0].id
        {
          KeepFrom(ts[1..], OtherId(id), rest[j]);
          var m :| 0 <= m < |ts[1..]| && ts[1..][m] == rest[j];
          assert ts[m + 1] == rest[j];
        }
      }
    }
  }

  // ---------------------------------------------------------- toggleCompletion

  /** `t.id === id ? { ...t, completed: !t.completed } : t`. */
  function Flip(t: Task, id: int): Task
  {
    if t.id == id then t.(completed := !t.completed) else t
  }

  /** `tasks.map(...)` with Flip: the list after `toggleCompletion(id)`. Every
      position keeps its id and text; `completed` changes exactly where the id
      matches. */
  function Toggled(ts: seq<Task>, id: int): (r: seq<Task>)
    ensures |r| == |ts|
    ensures forall i :: 0 <= i < |ts| ==>
      r[i].id == ts[i].id && r[i].text == ts[i].text &&
      (r[i].completed != ts[i].completed <==> ts[i].id == id)
  {
    seq(|ts|, i requires 0 <= i < |ts| => Flip(ts[i], id))
  }

  /** Toggling the same id twice restores the original list. */
  lemma ToggledTwice(ts: seq<Task>, id: int)
    ensures Toggled(Toggled(ts, id), id) == ts
  {
  }

  /** Toggling an id no task has changes nothing. */
  lemma ToggledAbsent(ts: seq<Task>, id: int)
    requires IdAbsent(ts, id)
    ensures Toggled(ts, id) == ts
  {
  }

  /** Toggling keeps the ids unique. */
  lemma ToggledKeepsUnique(ts: seq<Task>, id: int)
    requires UniqueIds(ts)
    ensures UniqueIds(Toggled(ts, id))
  {
  }

  // ---------------------------------------------------------------- the view

  predicate IsCompleted(t: Task) { t.completed }

  predicate IsPending(t: Task) { !t.completed }

  /** What the filter value shows: `"completed"` the completed tasks,
      `"pending"` the others, and any other value every task. */
  predicate Shows(filter: string, t: Task)
  {
    if filter == "completed" then t.completed
    else if filter == "pending" then !t.completed
    else true
  }

  /** `filteredTasks`: the tasks the current filter selects. */
  function Filtered(ts: seq<Task>, filter: string): (r: seq<Task>)
  {
    if filter == "completed" then Keep(ts, IsCompleted)
    else if filter == "pending" then Keep(ts, IsPending)
    else ts
  }

  /** The filtered view holds exactly the tasks the filter shows, each as
      often as in the list. */
  lemma FilteredExactly(ts: seq<Task>, filter: string, t: Task)
    ensures multiset(Filtered(ts, filter))[t] == if Shows(filter, t) then multiset(ts)[t] else 0
  {
    if filter == "completed" {
      KeepCount(ts, IsCompleted, t);
    } else if filter == "pending" {
      KeepCount(ts, IsPending, t);
    }
  }

  /** The filtered view keeps insertion order. */
  lemma FilteredInOrder(a: seq<Task>, b: seq<Task>, filter: string)
    ensures Filtered(a + b, filter) == Filtered(a, filter) + Filtered(b, filter)
  {
    if filter == "completed" {
      KeepConcat(a, b, IsCompleted);
    } else if filter == "pending" {
      KeepConcat(a, b, IsPending);
    }
  }

  /** The completed and the pending views partition the list. */
  lemma FilteredPartition(ts: seq<Task>)
    ensures |Filtered(ts, "completed")| + |Filtered(ts, "pending")| == |ts|
    ensures multiset(Filtered(ts, "completed")) + multiset(Filtered(ts, "pending")) == multiset(ts)
  {
    KeepSplit(ts, IsCompleted, IsPending);
  }

  /** After toggling the task at position `i`, it is shown under the filter
      matching its new status and not under the other one. */
  lemma ToggledMovesView(ts: seq<Task>, i: int)
    requires 0 <= i < |ts|
    ensures var t := Toggled(ts, ts[i].id)[i];
      (t in Filtered(Toggled(ts, ts[i].id), "completed") <==> !ts[i].completed) &&
      (t in Filtered(Toggled(ts, ts[i].id), "pending") <==> ts[i].completed)
  {
    var r := Toggled(ts, ts[i].id);
    var t := r[i];
    assert t in multiset(r);
    FilteredExactly(r, "completed", t);
    FilteredExactly(r, "pending", t);
  }

  /** The sort key of a task: the collation key of its text. */
  function ByText(collate: string -> seq<int>): Task -> seq<int>
  {
    (t: Task) => collate(t.text)
  }

  /** `sortedTasks`: a sorted copy of the filtered view, ordered by the
      collation keys of the texts. */
  function SortedView(ts: seq<Task>, collate: string -> seq<int>): (r: seq<Task>)
  {
    SortBy(ts, ByText(collate))
  }

  /** The sorted view is a permutation of its input, in non-decreasing order
      of text, and tasks whose texts tie keep their relative order. */
  lemma SortedViewCorrect(ts: seq<Task>, collate: string -> seq<int>, k: seq<int>)
    ensures multiset(SortedView(ts, collate)) == multiset(ts)
    ensures forall i, j | 0 <= i < j < |SortedView(ts, collate)| ::
      LexLe(collate(SortedView(ts, collate)[i].text), collate(SortedView(ts, collate)[j].text))
    ensures Keep(SortedView(ts, collate), SameKey(ByText(collate), k)) == Keep(ts, SameKey(ByText(collate), k))
  {
    SortSorted(ts, ByText(collate));
    SortStable(ts, ByText(collate), k);
  }
}
