/**
 * The task store: the tasks file, and the four commands of the task
 * manager. Each command reads the whole file first. Add and remove always
 * write the whole list back, mark complete writes only when a task with
 * the given id was found, and view never writes.
 */
module Store {
  import opened Wrappers
  import opened Tasks

  /**
   * What the tasks file holds when it is read. A file that does not exist
   * and one whose text does not parse both read as no tasks.
   */
  datatype FileState = Missing | Unparseable | Json(tasks: seq<Task>)

  /** The status column of a listed task. */
  datatype Status = Completed | Pending

  /** One line of the listing: id, description and status. */
  datatype Row = Row(id: int, description: string, status: Status)

  /** What viewTasks shows: the "no tasks" notice, or one row per task. */
  datatype Listing = NoTasks | Rows(rows: seq<Row>)

  class TaskStore {
    /** The tasks file. */
    var file: FileState
    /** How many times the file has been written. */
    var writes: nat

    /** The tasks a read of the file gives now: none unless the file holds a parsed list. */
    function Current(): seq<Task>
      reads this
    {
      match file
      case Json(tasks) => tasks
      case _ => []
    }

    constructor (initial: FileState)
      ensures file == initial && writes == 0
    {
      file := initial;
      writes := 0;
    }

    /** readTasks: the stored list, or no tasks when the file is missing or unparseable. */
    method ReadTasks() returns (tasks: seq<Task>)
      ensures file.Json? ==> tasks == file.tasks
      ensures !file.Json? ==> tasks == []
    {
      tasks := Current();
    }

    /** saveTasks: replace the whole file with the given list. */
    method SaveTasks(tasks: seq<Task>)
      modifies this
      ensures file == Json(tasks) && Current() == tasks
      ensures writes == old(writes) + 1
    {
      file := Json(tasks);
      writes := writes + 1;
    }

    /** addTask: append a pending task numbered after the last one, and save. */
    method AddTask(description: string)
      modifies this
      ensures Current() == old(Current()) + [Task(NextId(old(Current())), description, false)]
      ensures Current() == Added(old(Current()), description)
      ensures old(Current()) == [] ==> Current() == [Task(1, description, false)]
      ensures old(Current()) != [] ==>
                Current()[|Current()| - 1].id == old(Current())[|old(Current())| - 1].id + 1
      ensures file.Json? && writes == old(writes) + 1
      ensures IdsIncreasing(old(Current())) ==> IdsIncreasing(Current())
    {
      var tasks := ReadTasks();
      var newTask := Task(NextId(tasks), description, false);
      tasks := tasks + [newTask];
      SaveTasks(tasks);
    }

    /** viewTasks: list every task in order with its status; nothing is written. */
    method ViewTasks() returns (listing: Listing)
      ensures listing == NoTasks <==> Current() == []
      ensures listing.Rows? ==> |listing.rows| == |Current()|
      ensures listing.Rows? ==> forall i :: 0 <= i < |listing.rows| ==>
                listing.rows[i].id == Current()[i].id &&
                listing.rows[i].description == Current()[i].description &&
                (listing.rows[i].status == Completed <==> Current()[i].completed)
    {
      var tasks := ReadTasks();
      if |tasks| == 0 {
        return NoTasks;
      }
      var rows: seq<Row> := [];
      for i := 0 to |tasks|
        invariant |rows| == i
        invariant forall k :: 0 <= k < i ==>
                    rows[k].id == tasks[k].id &&
                    rows[k].description == tasks[k].description &&
                    (rows[k].status == Completed <==> tasks[k].completed)
      {
        var status := if tasks[i].completed then Completed else Pending;
        rows := rows + [Row(tasks[i].id, tasks[i].description, status)];
      }
      listing := Rows(rows);
    }

    /**
     * markTaskComplete: mark the first task with the given id as completed
     * and save; when no task has that id, report it and write nothing.
     */
    method MarkTaskComplete(id: Option<int>) returns (found: bool)
      modifies this
      ensures found <==> exists j :: 0 <= j < |old(Current())| && Matches(old(Current())[j], id)
      ensures found ==>
                var i := FindIndex(old(Current()), id).value;
                Current() == MarkedAt(old(Current()), i) &&
                Current()[i] == Task(old(Current())[i].id, old(Current())[i].description, true) &&
                file.Json? && writes == old(writes) + 1
      ensures !found ==> file == old(file) && writes == old(writes)
      ensures IdsIncreasing(old(Current())) ==> IdsIncreasing(Current())
    {
      var tasks := ReadTasks();
      assert tasks == old(Current());
      var index := FindIndex(tasks, id);
      if index.Some? {
        var i := index.value;
        assert Matches(tasks[i], id);
        ghost var marked := MarkedAt(tasks, i);
        tasks := tasks[i := tasks[i].(completed := true)];
        SaveTasks(tasks);
        found := true;
      } else {
        found := false;
      }
    }

    /** removeTask: drop every task with the given id and save, even when none matched. */
    method RemoveTask(id: Option<int>)
      modifies this
      ensures Current() == Without(old(Current()), id)
      ensures forall j :: 0 <= j < |old(Current())| && !Matches(old(Current())[j], id) ==>
                old(Current())[j] in Current()
      ensures (forall j :: 0 <= j < |old(Current())| ==> !Matches(old(Current())[j], id)) ==>
                Current() == old(Current())
      ensures file.Json? && writes == old(writes) + 1
      ensures IdsIncreasing(old(Current())) ==> IdsIncreasing(Current())
    {
      var tasks := ReadTasks();
      assert tasks == old(Current());
      if IdsIncreasing(tasks) {
        WithoutIncreasing(tasks, id);
      }
      var kept := Without(tasks, id);
      forall j | 0 <= j < |tasks| && !Matches(tasks[j], id) ensures tasks[j] in kept {
        WithoutCounts(tasks, id);
        assert multiset(kept)[tasks[j]] == multiset(tasks)[tasks[j]] > 0;
      }
      SaveTasks(kept);
    }
  }

  /** Example stores whose contents the verifier checks against the contracts above. */
  method Scenarios()
  {
    var store := new TaskStore(Missing);
    var listing := store.ViewTasks();
    assert listing == NoTasks;

    store.AddTask("buy milk");
    assert store.Current() == [Task(1, "buy milk", false)];

    var two := new TaskStore(Json([Task(1, "a", false), Task(2, "b", false)]));
    assert Matches(two.Current()[1], Some(2));
    assert FindIndex(two.Current(), Some(2)) == Some(1);
    var found := two.MarkTaskComplete(Some(2));
    assert found;
    assert two.Current() == [Task(1, "a", false), Task(2, "b", true)];

    found := two.MarkTaskComplete(None);
    assert !found && two.writes == 1;

    var other := new TaskStore(Json([Task(1, "a", false), Task(2, "b", false)]));
    other.RemoveTask(Some(1));
    assert other.Current() == [Task(2, "b", false)];
  }
}
