/** The board page (frontend/src/pages/KanbanBoardPage.jsx): how its socket
    handlers, the optimistic move and the drag-end decision turn one local
    state into the next. */
module Reconciler {
  import opened Common
  import opened TaskSchema
  import opened TaskTable
  import opened Boards
  import opened Events

  /** What the page's `board` state cell holds. */
  datatype BoardCell =
    | Loading                         // null, before the first fetch answers
    | Shown(board: Board)
    | Replaced(column: ColumnPayload) // a column-updated payload stored in place of the board
    | Crashed                         // an updater threw while rendering: the tree is unmounted

  /** The page renders its columns only when the cell holds a board. An
      empty cell or a column payload shows "Loading board..."; after a
      crash the application has no error boundary, so React unmounts the
      whole tree and the page is blank for good: the cleanup has removed
      the socket handlers and later `setState` calls are ignored. */
  predicate Renders(cell: BoardCell)
    ensures !Renders(cell) <==> cell.Loading? || cell.Replaced? || cell.Crashed?
  {
    cell.Shown?
  }

  /** The two state cells the socket handlers update. */
  datatype View = View(board: BoardCell, tasks: seq<Task>)

  /** `new-task`: `[...prev, task]` when the payload has an id; no check for
      a task already present. */
  function AppendTask(ts: seq<Task>, payload: Option<Task>): (r: seq<Task>)
    ensures payload.None? ==> r == ts
    ensures payload.Some? ==> |r| == |ts| + 1 && r[..|ts|] == ts && r[|ts|] == payload.value
  {
    match payload
    case None => ts
    case Some(t) => ts + [t]
  }

  /** `prev.map(t => t._id === task._id ? task : t)` */
  function ReplaceById(ts: seq<Task>, task: Task): (r: seq<Task>)
    ensures |r| == |ts|
    ensures forall i :: 0 <= i < |ts| ==> r[i] == if ts[i].id == task.id then task else ts[i]
  {
    if ts == [] then []
    else [if ts[0].id == task.id then task else ts[0]] + ReplaceById(ts[1..], task)
  }

  /** The optimistic part of `moveTask`:
      `prev.map(t => t._id === id ? { ...t, columnId } : t)` */
  function MoveTask(ts: seq<Task>, id: Id, columnId: Id): (r: seq<Task>)
    ensures |r| == |ts|
    ensures forall i :: 0 <= i < |ts| ==>
      r[i] == if ts[i].id == id then ts[i].(columnId := columnId) else ts[i]
  {
    if ts == [] then []
    else [if ts[0].id == id then ts[0].(columnId := columnId) else ts[0]] + MoveTask(ts[1..], id, columnId)
  }

  /** The board half of `column-deleted`: `{ ...prev, columns: prev.columns.filter(...) }`.
      A missing id filters nothing; a cell without `columns` makes the updater throw. */
  function DropColumn(cell: BoardCell, columnId: Option<Id>): (r: BoardCell)
    ensures !cell.Shown? ==> r == Crashed
    ensures cell.Shown? && columnId.None? ==> r == cell
    ensures cell.Shown? && columnId.Some? ==>
      r == Shown(cell.board.(columns := WithoutColumnId(cell.board.columns, columnId.value)))
  {
    match cell
    case Shown(b) =>
      (match columnId
       case None => cell
       case Some(c) => Shown(b.(columns := WithoutColumnId(b.columns, c))))
    case _ => Crashed
  }

  /** One socket event applied to the page state. */
  function OnEvent(v: View, e: Event): (r: View)
    ensures !e.ColumnUpdated? && !e.ColumnDeleted? ==> r.board == v.board
    ensures e.NewTask? ==> r.tasks == AppendTask(v.tasks, e.task)
    ensures e.TaskUpdated? ==>
      |r.tasks| == |v.tasks| &&
      forall t :: t in r.tasks ==> t in v.tasks || e.task == Some(t)
    ensures e.TaskUpdated? && e.task.None? ==> r == v
    ensures e.TaskUpdated? && e.task.Some? ==>
      r.tasks == ReplaceById(v.tasks, e.task.value)
    ensures e.TaskDeleted? ==>
      forall t :: t in r.tasks <==> t in v.tasks && (e.taskId.None? || t.id != e.taskId.value)
    ensures e.ColumnUpdated? ==> r == View(Replaced(e.column), v.tasks) && !Renders(r.board)
    ensures e.ColumnDeleted? ==>
      r.board == DropColumn(v.board, e.columnId) &&
      forall t :: t in r.tasks <==> t in v.tasks && (e.columnId.None? || t.columnId != e.columnId.value)
  {
    match e
    case NewTask(p) => v.(tasks := AppendTask(v.tasks, p))
    case TaskUpdated(p) =>
      (match p
       case None => v
       case Some(t) => v.(tasks := ReplaceById(v.tasks, t)))
    case TaskDeleted(p) =>
      (match p
       case None => v
       case Some(id) => v.(tasks := WithoutTask(v.tasks, id)))
    case ColumnUpdated(c) => v.(board := Replaced(c))
    case ColumnDeleted(p) =>
      View(DropColumn(v.board, p),
           match p case None => v.tasks case Some(c) => WithoutColumn(v.tasks, c))
  }

  // ---- Properties of the handlers ----

  /** `new-task` is not idempotent: a second delivery of the same task adds a
      second copy. */
  lemma NewTaskDuplicates(v: View, t: Task)
    ensures OnEvent(OnEvent(v, NewTask(Some(t))), NewTask(Some(t))).tasks == v.tasks + [t, t]
  {
  }

  /** `task-updated` for an id the page does not hold changes nothing. */
  lemma {:induction false} ReplaceAbsent(ts: seq<Task>, task: Task)
    requires forall i :: 0 <= i < |ts| ==> ts[i].id != task.id
    ensures ReplaceById(ts, task) == ts
  {
    if ts != [] {
      ReplaceAbsent(ts[1..], task);
    }
  }

  /** Delivering the same `task-updated` twice leaves what delivering it once leaves. */
  lemma TaskUpdatedIdempotent(v: View, p: Option<Task>)
    ensures OnEvent(OnEvent(v, TaskUpdated(p)), TaskUpdated(p)) == OnEvent(v, TaskUpdated(p))
  {
    if p.Some? {
      var once := ReplaceById(v.tasks, p.value);
      var twice := ReplaceById(once, p.value);
      assert twice == once;
    }
  }

  /** `task-deleted` for an id the page does not hold changes nothing. */
  lemma TaskDeletedAbsent(v: View, id: Id)
    requires forall i :: 0 <= i < |v.tasks| ==> v.tasks[i].id != id
    ensures OnEvent(v, TaskDeleted(Some(id))) == v
  {
    SelectAll(v.tasks, IdField, id, false);
  }

  /** Delivering the same `task-deleted` twice leaves what delivering it once leaves. */
  lemma TaskDeletedIdempotent(v: View, p: Option<Id>)
    ensures OnEvent(OnEvent(v, TaskDeleted(p)), TaskDeleted(p)) == OnEvent(v, TaskDeleted(p))
  {
    if p.Some? {
      SelectIdempotent(v.tasks, IdField, p.value, false);
    }
  }

  /** `task-deleted` keeps the remaining tasks in their order. */
  lemma TaskDeletedKeepsOrder(a: seq<Task>, b: seq<Task>, id: Id)
    ensures WithoutTask(a + b, id) == WithoutTask(a, id) + WithoutTask(b, id)
  {
    SelectAppend(a, b, IdField, id, false);
  }

  /** After `column-deleted` on a rendered board, neither the board nor the
      task list mentions the column. */
  lemma ColumnDeletedClears(v: View, c: Id)
    requires Renders(v.board)
    ensures var r := OnEvent(v, ColumnDeleted(Some(c)));
      Renders(r.board) &&
      (forall col :: col in r.board.board.columns <==> col in v.board.board.columns && col.id != c) &&
      (forall t :: t in r.tasks ==> t.columnId != c)
  {
  }

  /** The optimistic move changes no task but the one with the id, and of
      that one only its column; the order and the number of tasks are kept. */
  lemma MoveTaskOnlyColumn(ts: seq<Task>, id: Id, columnId: Id, i: nat)
    requires i < |ts|
    ensures var r := MoveTask(ts, id, columnId);
      r[i].id == ts[i].id && r[i].boardId == ts[i].boardId && r[i].title == ts[i].title &&
      r[i].descriptions == ts[i].descriptions && r[i].priority == ts[i].priority &&
      (ts[i].id != id ==> r[i] == ts[i]) && (ts[i].id == id ==> r[i].columnId == columnId)
  {
  }

  // ---- Drag and drop ----

  /** What a drag ended over: the trash bin or another droppable (a column
      or a task card), identified by its id. */
  datatype Over = TrashBin | Droppable(id: Id)

  datatype DragAction =
    | NoAction
    | DeleteTask(taskId: Id)
    | AlreadyInColumn
    | MoveTo(taskId: Id, columnId: Id)

  /** The decision in `handleDragEnd`: no target does nothing, the trash bin
      deletes, the dragged task's own column is refused, an existing column
      receives the task, and any other target does nothing. `active` is the
      task recorded when the drag started. */
  function DragDecision(activeId: Id, active: Option<Task>, over: Option<Over>, columns: seq<Column>): (a: DragAction)
    ensures a.DeleteTask? <==> over == Some(TrashBin)
    ensures a.DeleteTask? ==> a.taskId == activeId
    ensures a == AlreadyInColumn <==>
      over.Some? && over.value.Droppable? && active.Some? && active.value.columnId == over.value.id
    ensures a.MoveTo? <==>
      over.Some? && over.value.Droppable? &&
      !(active.Some? && active.value.columnId == over.value.id) &&
      FindColumn(columns, over.value.id).Some?
    ensures a.MoveTo? ==> a == MoveTo(activeId, over.value.id)
    ensures a == NoAction <==>
      over.None? ||
      (over.value.Droppable? && !(active.Some? && active.value.columnId == over.value.id) &&
       FindColumn(columns, over.value.id).None?)
  {
    match over
    case None => NoAction
    case Some(TrashBin) => DeleteTask(activeId)
    case Some(Droppable(target)) =>
      if active.Some? && active.value.columnId == target then AlreadyInColumn
      else if FindColumn(columns, target).Some? then MoveTo(activeId, target)
      else NoAction
  }

  /** The page's state cells, which its handlers set one after another. */
  class BoardPage {
    var board: BoardCell
    var tasks: seq<Task>
    var activeTask: Option<Task>

    constructor ()
      ensures board == Loading && tasks == [] && activeTask == None
    {
      board, tasks, activeTask := Loading, [], None;
    }

    /** A socket handler runs to completion on the current state. A page
        that crashed has no handlers left, so nothing changes. */
    method Receive(e: Event)
      modifies this
      ensures old(board).Crashed? ==> board == Crashed && tasks == old(tasks)
      ensures !old(board).Crashed? ==> View(board, tasks) == OnEvent(old(View(board, tasks)), e)
      ensures activeTask == old(activeTask)
    {
      if !board.Crashed? {
        var next := OnEvent(View(board, tasks), e);
        board, tasks := next.board, next.tasks;
      }
    }

    /** `fetchTasks`: the task list is replaced by the server's answer,
        unless the page has crashed and the update is ignored. */
    method Resync(fetched: seq<Task>)
      modifies this
      ensures tasks == (if old(board).Crashed? then old(tasks) else fetched)
      ensures board == old(board) && activeTask == old(activeTask)
    {
      if !board.Crashed? {
        tasks := fetched;
      }
    }

    /** `setBoard(data)` with a board the server returned (the initial fetch
        and the answers of the column and title requests). An answer that
        arrives after a crash is ignored: the page stays blank. */
    method ShowBoard(b: Board)
      modifies this
      ensures old(board).Crashed? ==> board == Crashed && !Renders(board)
      ensures !old(board).Crashed? ==> board == Shown(b) && Renders(board)
      ensures tasks == old(tasks) && activeTask == old(activeTask)
    {
      if !board.Crashed? {
        board := Shown(b);
      }
    }

    /** `handleDragStart`: records the dragged task if the page holds it.
        Only a rendered board draws task cards, so on any other page there
        is nothing to drag and nothing changes. */
    method DragStart(activeId: Id)
      modifies this
      ensures board == old(board) && tasks == old(tasks)
      ensures !Renders(board) || FindTask(tasks, activeId).None? ==> activeTask == old(activeTask)
      ensures Renders(board) && FindTask(tasks, activeId).Some? ==>
                activeTask == Some(tasks[FindTask(tasks, activeId).value])
    {
      if Renders(board) {
        match FindTask(tasks, activeId)
        case None =>
        case Some(k) => activeTask := Some(tasks[k]);
      }
    }

    /** `handleDragEnd` on a rendered board. A move updates the list at once;
        a delete removes the task only when the server accepts it. */
    method DragEnd(activeId: Id, over: Option<Over>, deleteAccepted: bool) returns (action: DragAction)
      requires Renders(board)
      modifies this
      ensures action == DragDecision(activeId, old(activeTask), over, old(board).board.columns)
      ensures activeTask == None && board == old(board)
      ensures action.MoveTo? ==> tasks == MoveTask(old(tasks), activeId, action.columnId)
      ensures action.DeleteTask? && deleteAccepted ==> tasks == WithoutTask(old(tasks), activeId)
      ensures !action.MoveTo? && !(action.DeleteTask? && deleteAccepted) ==> tasks == old(tasks)
    {
      var recorded := activeTask;
      activeTask := None;
      action := DragDecision(activeId, recorded, over, board.board.columns);
      match action
      case MoveTo(id, c) => tasks := MoveTask(tasks, id, c);
      case DeleteTask(id) =>
        if deleteAccepted {
          tasks := WithoutTask(tasks, id);
        }
      case _ =>
    }
  }
}
