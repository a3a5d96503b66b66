/** The state of the `TodoApp` component and its handlers. Each handler is one
    atomic state update; the React state setters become field assignments. */
module Todo {
  import opened Tasks
  import opened Text

  datatype Option<T> = None | Some(value: T)

  class TodoApp {
    /** The text in the input field. */
    var task: string
    /** The task list, in insertion order. */
    var tasks: seq<Task>
    /** The value of the filter select. */
    var filter: string

    /** The initial state of the three `useState` hooks. */
    constructor ()
      ensures task == "" && tasks == [] && filter == "all"
    {
      task, tasks, filter := "", [], "all";
    }

    /** The loading effect: the stored list, or the empty list. `saved` is
        None when the key is absent or the stored value is falsy. */
    method Restore(saved: Option<seq<Task>>)
      modifies this
      ensures tasks == (if saved.Some? then saved.value else [])
      ensures task == old(task) && filter == old(filter)
    {
      tasks := if saved.Some? then saved.value else [];
    }

    /** Typing in the input field. */
    method SetTask(text: string)
      modifies this
      ensures task == text && tasks == old(tasks) && filter == old(filter)
    {
      task := text;
    }

    /** Choosing a filter value. */
    method SetFilter(value: string)
      modifies this
      ensures filter == value && task == old(task) && tasks == old(tasks)
    {
      filter := value;
    }

    /** `addTask`, with `now` the value of `Date.now()`. A blank input is
        rejected (`accepted` is false where the source raises an alert) and
        nothing changes; otherwise the untrimmed input is appended as a
        pending task and the input field is cleared. Ids stay unique when
        `now` is not already an id. */
    method AddTask(now: int) returns (accepted: bool)
      modifies this
      ensures accepted <==> !IsBlank(old(task))
      ensures accepted ==> tasks == old(tasks) + [Task(now, old(task), false)] && task == ""
      ensures !accepted ==> tasks == old(tasks) && task == old(task)
      ensures filter == old(filter)
      ensures old(UniqueIds(tasks)) && old(IdAbsent(tasks, now)) ==> UniqueIds(tasks)
    {
      if IsBlank(task) {
        return false;
      }
      var t := Task(now, task, false);
      if UniqueIds(tasks) && IdAbsent(tasks, now) {
        AppendFreshKeepsUnique(tasks, t);
      }
      tasks := tasks + [t];
      task := "";
      accepted := true;
    }

    /** `removeTask(id)`: drops every task with the id; ids stay unique. */
    method RemoveTask(id: int)
      modifies this
      ensures tasks == Removed(old(tasks), id)
      ensures IdAbsent(tasks, id)
      ensures old(UniqueIds(tasks)) ==> UniqueIds(tasks)
      ensures task == old(task) && filter == old(filter)
    {
      if UniqueIds(tasks) {
        RemovedKeepsUnique(tasks, id);
      }
      tasks := Removed(tasks, id);
    }

    /** `toggleCompletion(id)`: flips `completed` on every task with the id;
        ids stay unique. */
    method ToggleCompletion(id: int)
      modifies this
      ensures tasks == Toggled(old(tasks), id)
      ensures old(UniqueIds(tasks)) ==> UniqueIds(tasks)
      ensures task == old(task) && filter == old(filter)
    {
      if UniqueIds(tasks) {
        ToggledKeepsUnique(tasks, id);
      }
      tasks := Toggled(tasks, id);
    }

    /** `filteredTasks`, derived from the current state. */
    function FilteredTasks(): (r: seq<Task>)
      reads this
    {
      Filtered(tasks, filter)
    }

    /** `sortedTasks`, derived from the current state; `collate` gives the
        collation key `localeCompare` compares. */
    function SortedTasks(collate: string -> seq<int>): (r: seq<Task>)
      reads this
    {
      SortedView(FilteredTasks(), collate)
    }
  }

  /** A client of the component: adding a task to an empty list under the
      filter "all" shows exactly that task, and toggling it moves it from
      the pending to the completed view. */
  method AddThenToggle(collate: string -> seq<int>)
  {
    var app := new TodoApp();
    app.SetTask("Buy milk");
    assert !IsTrimmable(app.task[0]);
    var accepted := app.AddTask(1);
    assert accepted && app.task == "";
    assert app.SortedTasks(collate) == [Task(1, "Buy milk", false)];
    app.ToggleCompletion(1);
    assert app.tasks == [Task(1, "Buy milk", true)];
    ToggledMovesView([Task(1, "Buy milk", false)], 0);
    app.SetFilter("pending");
    assert Task(1, "Buy milk", true) !in app.FilteredTasks();
    app.SetFilter("completed");
    assert Task(1, "Buy milk", true) in app.FilteredTasks();
  }
}
