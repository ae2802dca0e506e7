/** The Kanban board of `app/routes/dashboard.kanban.tsx`: a board owns an
    ordered list of columns, each column an ordered list of tasks, and a
    drag-and-drop moves one task from one column to the end of another. */
module Kanban {
  import opened Builtins

  datatype Assignee = Assignee(id: string, email: string)

  datatype Task = Task(
    id: string,
    title: string,
    description: Option<string>,
    priority: string,
    status: string,
    position: int,
    dueDate: Option<string>,
    assignees: seq<Assignee>)

  datatype Column = Column(
    id: string,
    name: string,
    position: int,
    color: string,
    tasks: seq<Task>)

  /** `columns.findIndex(col => col.id === id)`. */
  function ColumnIndex(columns: seq<Column>, id: string): Option<nat>
  {
    FindIndex(columns, (c: Column) => c.id == id)
  }

  /** `tasks.findIndex(task => task.id === id)`. */
  function TaskIndex(tasks: seq<Task>, id: string): Option<nat>
  {
    FindIndex(tasks, (t: Task) => t.id == id)
  }

  /** `tasks.splice(k, 1)`: what is left of `tasks` once the task at `k` is cut out. */
  function RemoveAt(tasks: seq<Task>, k: nat): (r: seq<Task>)
    requires k < |tasks|
    ensures |r| == |tasks| - 1
    ensures forall i :: 0 <= i < k ==> r[i] == tasks[i]
    ensures forall i :: k <= i < |r| ==> r[i] == tasks[i + 1]
  {
    tasks[..k] + tasks[k + 1..]
  }

  /** The board's columns after moving task `taskId` from column `fromId`
      to column `toId`: column by column, what the drop produces. No column
      is added or lost. */
  function Move(columns: seq<Column>, taskId: string, fromId: string, toId: string): (r: seq<Column>)
    ensures |r| == |columns|
  {
    if fromId == toId then columns
    else match (ColumnIndex(columns, fromId), ColumnIndex(columns, toId))
      case (Some(f), Some(t)) =>
        (match TaskIndex(columns[f].tasks, taskId)
          case None => columns
          case Some(k) =>
            var moved := columns[f].tasks[k].(status := columns[t].name, position := |columns[t].tasks|);
            columns[f := columns[f].(tasks := RemoveAt(columns[f].tasks, k))]
                   [t := columns[t].(tasks := columns[t].tasks + [moved])])
      case _ => columns
  }

  /** The identifiers of every task on the board, column after column. */
  function AllTaskIds(columns: seq<Column>): seq<string>
  {
    if columns == [] then [] else TaskIds(columns[0].tasks) + AllTaskIds(columns[1..])
  }

  function TaskIds(tasks: seq<Task>): (r: seq<string>)
    ensures |r| == |tasks|
    ensures forall i :: 0 <= i < |tasks| ==> r[i] == tasks[i].id
  {
    seq(|tasks|, i requires 0 <= i < |tasks| => tasks[i].id)
  }

  /** The number of tasks on the board. */
  function TotalTasks(columns: seq<Column>): nat
  {
    if columns == [] then 0 else |columns[0].tasks| + TotalTasks(columns[1..])
  }

  /** Two distinct column ids can never be found at the same index. */
  lemma DistinctIdsDistinctIndices(columns: seq<Column>, a: string, b: string)
    requires a != b
    requires ColumnIndex(columns, a).Some? && ColumnIndex(columns, b).Some?
    ensures ColumnIndex(columns, a).value != ColumnIndex(columns, b).value
  {
  }

  /** The three early exits of `handleTaskMove` leave the board as it was. */
  lemma MoveNoOp(columns: seq<Column>, taskId: string, fromId: string, toId: string)
    requires
      || fromId == toId
      || ColumnIndex(columns, fromId).None?
      || ColumnIndex(columns, toId).None?
      || TaskIndex(columns[ColumnIndex(columns, fromId).value].tasks, taskId).None?
    ensures Move(columns, taskId, fromId, toId) == columns
  {
  }

  /** A successful move: the source column loses exactly the first task with
      that id (the others keep their order and their positions), the task is
      appended to the destination with the destination's name as status and
      the destination's former length as position, and nothing else changes. */
  lemma MoveSucceeds(columns: seq<Column>, taskId: string, fromId: string, toId: string)
    requires fromId != toId
    requires ColumnIndex(columns, fromId).Some? && ColumnIndex(columns, toId).Some?
    requires TaskIndex(columns[ColumnIndex(columns, fromId).value].tasks, taskId).Some?
    ensures
      var f, t := ColumnIndex(columns, fromId).value, ColumnIndex(columns, toId).value;
      var k := TaskIndex(columns[f].tasks, taskId).value;
      var task := columns[f].tasks[k];
      var r := Move(columns, taskId, fromId, toId);
      && f != t
      && |r| == |columns|
      && task.id == taskId
      && (forall j :: 0 <= j < k ==> columns[f].tasks[j].id != taskId)
      && r[f] == columns[f].(tasks := columns[f].tasks[..k] + columns[f].tasks[k + 1..])
      && r[t] == columns[t].(tasks := columns[t].tasks + [task.(status := columns[t].name, position := |columns[t].tasks|)])
      && (forall i :: 0 <= i < |columns| && i != f && i != t ==> r[i] == columns[i])
  {
    DistinctIdsDistinctIndices(columns, fromId, toId);
  }

  /** Moving never adds, drops or reorders columns, and never changes a
      column's id, name, position or colour. */
  lemma {:induction false} MoveKeepsColumns(columns: seq<Column>, taskId: string, fromId: string, toId: string)
    ensures
      var r := Move(columns, taskId, fromId, toId);
      && |r| == |columns|
      && forall i :: 0 <= i < |columns| ==>
           r[i].id == columns[i].id && r[i].name == columns[i].name
           && r[i].position == columns[i].position && r[i].color == columns[i].color
  {
  }

  /** Updating one column changes the board's task ids by exactly the
      difference between the old and the new column. */
  lemma {:induction false} UpdateColumnIds(columns: seq<Column>, i: nat, c: Column)
    requires i < |columns|
    ensures multiset(AllTaskIds(columns[i := c])) + multiset(TaskIds(columns[i].tasks))
         == multiset(AllTaskIds(columns)) + multiset(TaskIds(c.tasks))
  {
    var updated := columns[i := c];
    if i == 0 {
      assert updated[1..] == columns[1..];
      var rest := multiset(AllTaskIds(columns[1..]));
      assert multiset(AllTaskIds(updated)) == multiset(TaskIds(c.tasks)) + rest;
      assert multiset(AllTaskIds(columns)) == multiset(TaskIds(columns[0].tasks)) + rest;
      MultisetSwap(multiset(TaskIds(c.tasks)), rest, multiset(TaskIds(columns[0].tasks)));
    } else {
      UpdateColumnIds(columns[1..], i - 1, c);
      assert updated[1..] == columns[1..][i - 1 := c];
      assert columns[1..][i - 1] == columns[i];
      var head := multiset(TaskIds(columns[0].tasks));
      assert multiset(AllTaskIds(updated)) == head + multiset(AllTaskIds(columns[1..][i - 1 := c]));
      assert multiset(AllTaskIds(columns)) == head + multiset(AllTaskIds(columns[1..]));
      MultisetShift(head, multiset(AllTaskIds(columns[1..][i - 1 := c])), multiset(TaskIds(columns[i].tasks)),
        multiset(AllTaskIds(columns[1..])), multiset(TaskIds(c.tasks)));
    }
  }

  lemma MultisetSwap(a: multiset<string>, b: multiset<string>, c: multiset<string>)
    ensures (a + b) + c == (c + b) + a
  {
    forall e ensures ((a + b) + c)[e] == ((c + b) + a)[e] {
    }
  }

  lemma MultisetShift(h: multiset<string>, x: multiset<string>, y: multiset<string>, z: multiset<string>, w: multiset<string>)
    requires x + y == z + w
    ensures (h + x) + y == (h + z) + w
  {
    forall e ensures ((h + x) + y)[e] == ((h + z) + w)[e] {
      assert (x + y)[e] == (z + w)[e];
    }
  }

  lemma MultisetCancel(r: multiset<string>, mid: multiset<string>, all: multiset<string>,
                       src: multiset<string>, rest: multiset<string>, dst: multiset<string>, x: multiset<string>)
    requires mid + src == all + rest
    requires src == rest + x
    requires r + dst == mid + (dst + x)
    ensures r == all
  {
    forall e ensures r[e] == all[e] {
      assert (mid + src)[e] == (all + rest)[e];
      assert (r + dst)[e] == (mid + (dst + x))[e];
    }
  }

  lemma RemoveAtIds(tasks: seq<Task>, k: nat)
    requires k < |tasks|
    ensures multiset(TaskIds(tasks)) == multiset(TaskIds(RemoveAt(tasks, k))) + multiset{tasks[k].id}
  {
    var ids := TaskIds(tasks);
    var x := tasks[k].id;
    assert ids == ids[..k] + ([x] + ids[k + 1..]);
    assert TaskIds(RemoveAt(tasks, k)) == ids[..k] + ids[k + 1..];
    var before, after := multiset(ids[..k]), multiset(ids[k + 1..]);
    assert multiset(ids) == before + (multiset{x} + after);
    assert multiset(TaskIds(RemoveAt(tasks, k))) == before + after;
    forall e ensures (before + (multiset{x} + after))[e] == ((before + after) + multiset{x})[e] {
    }
  }

  lemma AppendIds(tasks: seq<Task>, x: Task)
    ensures multiset(TaskIds(tasks + [x])) == multiset(TaskIds(tasks)) + multiset{x.id}
  {
    assert TaskIds(tasks + [x]) == TaskIds(tasks) + [x.id];
  }

  lemma {:induction false} AllTaskIdsCount(columns: seq<Column>)
    ensures |AllTaskIds(columns)| == TotalTasks(columns)
  {
    if columns != [] {
      AllTaskIdsCount(columns[1..]);
    }
  }

  /** A move only relocates a task: the multiset of task ids on the board,
      and so the total number of tasks, is the same before and after. */
  lemma MovePreservesTasks(columns: seq<Column>, taskId: string, fromId: string, toId: string)
    ensures multiset(AllTaskIds(Move(columns, taskId, fromId, toId))) == multiset(AllTaskIds(columns))
    ensures TotalTasks(Move(columns, taskId, fromId, toId)) == TotalTasks(columns)
  {
    var r := Move(columns, taskId, fromId, toId);
    if fromId != toId && ColumnIndex(columns, fromId).Some? && ColumnIndex(columns, toId).Some? {
      var f, t := ColumnIndex(columns, fromId).value, ColumnIndex(columns, toId).value;
      if TaskIndex(columns[f].tasks, taskId).Some? {
        MoveSucceeds(columns, taskId, fromId, toId);
        var k := TaskIndex(columns[f].tasks, taskId).value;
        var src := columns[f].tasks;
        var task := src[k];
        var cf := columns[f].(tasks := RemoveAt(src, k));
        var ct := columns[t].(tasks := columns[t].tasks + [task.(status := columns[t].name, position := |columns[t].tasks|)]);
        var mid := columns[f := cf];
        assert r == mid[t := ct];
        assert mid[t] == columns[t];
        UpdateColumnIds(columns, f, cf);
        UpdateColumnIds(mid, t, ct);
        RemoveAtIds(src, k);
        AppendIds(columns[t].tasks, task.(status := columns[t].name, position := |columns[t].tasks|));
        MultisetCancel(multiset(AllTaskIds(r)), multiset(AllTaskIds(mid)), multiset(AllTaskIds(columns)),
          multiset(TaskIds(src)), multiset(TaskIds(cf.tasks)), multiset(TaskIds(columns[t].tasks)), multiset{taskId});
      }
    }
    AllTaskIdsCount(r);
    AllTaskIdsCount(columns);
  }

  /** The board as `KanbanBoard` holds it in its `kanbanData` state. */
  class Board {
    var id: string
    var name: string
    var columns: seq<Column>

    constructor (id: string, name: string, columns: seq<Column>)
      ensures this.id == id && this.name == name && this.columns == columns
    {
      this.id := id;
      this.name := name;
      this.columns := columns;
    }

    /** `handleTaskMove`: cut the task out of the source column (`splice`),
        relabel its status, and push it, with its new position, onto the
        destination column; any lookup that fails leaves the board alone. */
    method HandleTaskMove(taskId: string, fromColumnId: string, toColumnId: string)
      modifies this
      ensures columns == Move(old(columns), taskId, fromColumnId, toColumnId)
      ensures id == old(id) && name == old(name)
    {
      if fromColumnId == toColumnId {
        return;
      }
      var fromColumnIndex := ColumnIndex(columns, fromColumnId);
      var toColumnIndex := ColumnIndex(columns, toColumnId);
      if fromColumnIndex.None? || toColumnIndex.None? {
        return;
      }
      var f, t := fromColumnIndex.value, toColumnIndex.value;
      var taskIndex := TaskIndex(columns[f].tasks, taskId);
      if taskIndex.None? {
        return;
      }
      DistinctIdsDistinctIndices(columns, fromColumnId, toColumnId);
      var k := taskIndex.value;
      var task := columns[f].tasks[k];
      columns := columns[f := columns[f].(tasks := columns[f].tasks[..k] + columns[f].tasks[k + 1..])];
      task := task.(status := columns[t].name);
      columns := columns[t := columns[t].(tasks := columns[t].tasks + [task.(position := |columns[t].tasks|)])];
    }
  }
}
