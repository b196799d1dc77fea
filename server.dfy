/** The server side: the board and task routes as methods of one store that
    holds the two collections. Every id the store hands out comes from
    `nextId`, which stands for the document database's fresh-id supply. */
module Server {
  import opened Common
  import opened TaskSchema
  import opened TaskTable
  import opened Boards
  import opened Events

  class Store {
    var boards: seq<Board>
    var tasks: seq<Task>
    var nextId: nat

    /** Ids are unique per collection, column ids are unique per board, and
        every id in use was handed out before `nextId`. */
    ghost predicate Valid()
      reads this
    {
      UniqueBoardIds(boards) && UniqueIds(tasks) &&
      (forall b :: b in boards ==> BoardIdsBelow(b, nextId)) &&
      (forall t :: t in tasks ==> t.id < nextId)
    }

    constructor ()
      ensures Valid() && boards == [] && tasks == []
    {
      boards, tasks, nextId := [], [], 0;
    }

    /** Hands out one fresh id. */
    method FreshId() returns (id: Id)
      requires Valid()
      modifies this
      ensures Valid() && id == old(nextId) && nextId == id + 1
      ensures boards == old(boards) && tasks == old(tasks)
    {
      id := nextId;
      nextId := nextId + 1;
      forall b | b in boards ensures BoardIdsBelow(b, nextId) {
        assert BoardIdsBelow(b, nextId - 1);
      }
    }

    // ---- backend/routes/boardRoutes.js ----

    /** GET /api/boards: every board in store order, each with its progress:
        the board's tasks, its done column, the count, and the rounding. */
    method ListBoards() returns (results: seq<ListedBoard>)
      ensures |results| == |boards|
      ensures forall i :: 0 <= i < |boards| ==>
        results[i] == ListedBoard(boards[i], Some(BoardProgress(boards[i], tasks)))
      ensures forall i :: 0 <= i < |results| ==> results[i].progress.value <= 100
    {
      results := [];
      var i := 0;
      while i < |boards|
        invariant 0 <= i <= |boards|
        invariant |results| == i
        invariant forall j :: 0 <= j < i ==>
          results[j] == ListedBoard(boards[j], Some(BoardProgress(boards[j], tasks)))
      {
        var board := boards[i];
        var progress := BoardProgress(board, tasks);
        ghost var prev := results;
        results := results + [ListedBoard(board, Some(progress))];
        assert forall j :: 0 <= j < i ==> results[j] == prev[j];
        i := i + 1;
      }
    }

    /** GET /api/boards/:id */
    method GetBoard(id: Id) returns (r: Result<Board>)
      ensures FindBoard(boards, id).None? ==> r == Err(NotFound)
      ensures FindBoard(boards, id).Some? ==> r == Ok(boards[FindBoard(boards, id).value])
      ensures r.Ok? ==> r.value in boards && r.value.id == id
    {
      match FindBoard(boards, id)
      case None => r := Err(NotFound);
      case Some(k) => r := Ok(boards[k]);
    }

    /** POST /api/boards: a new board seeded with "To Do", "In Progress" and
        "Done", appended to the collection. */
    method CreateBoard(title: Option<string>) returns (b: Board)
      requires Valid()
      modifies this
      ensures Valid()
      ensures b == NewBoard(old(nextId), title, [old(nextId) + 1, old(nextId) + 2, old(nextId) + 3])
      ensures boards == old(boards) + [b] && tasks == old(tasks)
      ensures forall c :: c in old(boards) ==> c.id != b.id
    {
      var id := FreshId();
      var c0 := FreshId();
      var c1 := FreshId();
      var c2 := FreshId();
      b := NewBoard(id, title, [c0, c1, c2]);
      assert BoardIdsBelow(b, nextId) by {
        NewBoardIdsBelow(id, title, [c0, c1, c2], nextId);
      }
      ghost var before := boards;
      assert forall c :: c in before ==> c.id < id;
      boards := boards + [b];
      forall i, j | 0 <= i < j < |boards| ensures boards[i].id != boards[j].id {
        if j == |before| {
          assert boards[i] in before;
        } else {
          assert boards[i] == before[i] && boards[j] == before[j];
        }
      }
      forall c | c in boards ensures BoardIdsBelow(c, nextId) {
        if c != b {
          assert c in before;
        }
      }
    }

    /** PUT /api/boards/:id: a new title only when the given one is truthy. */
    method RenameBoard(id: Id, title: Option<string>) returns (r: Result<Board>)
      requires Valid()
      modifies this
      ensures Valid() && tasks == old(tasks) && nextId == old(nextId)
      ensures FindBoard(old(boards), id).None? ==> r == Err(NotFound) && boards == old(boards)
      ensures FindBoard(old(boards), id).Some? ==>
        var k := FindBoard(old(boards), id).value;
        var renamed := old(boards)[k].(title := RenamedTitle(old(boards)[k].title, title));
        r == Ok(renamed) && boards == old(boards)[k := renamed]
    {
      match FindBoard(boards, id)
      case None => r := Err(NotFound);
      case Some(k) =>
        var renamed := boards[k].(title := RenamedTitle(boards[k].title, title));
        assert boards[k] in boards;
        ReplaceBoard(k, renamed);
        r := Ok(renamed);
    }

    /** DELETE /api/boards/:id: removes the board if present and always
        answers success; the board's tasks are not deleted. */
    method DeleteBoard(id: Id)
      requires Valid()
      modifies this
      ensures Valid() && tasks == old(tasks) && nextId == old(nextId)
      ensures FindBoard(old(boards), id).None? ==> boards == old(boards)
      ensures FindBoard(old(boards), id).Some? ==>
        var k := FindBoard(old(boards), id).value;
        boards == old(boards)[..k] + old(boards)[k+1..]
      ensures forall b :: b in boards ==> b.id != id
    {
      match FindBoard(boards, id)
      case None =>
      case Some(k) =>
        RemoveBoardAt(boards, k);
        boards := boards[..k] + boards[k+1..];
    }

    /** POST /api/boards/:id/columns: appends a column with a fresh id and
        publishes `column-updated` carrying the pushed object, which has a
        name but no id. An unknown board makes the handler throw. */
    method AddColumn(boardId: Id, name: string) returns (r: Result<Board>, ev: Option<Emit>)
      requires Valid()
      modifies this
      ensures Valid() && tasks == old(tasks)
      ensures FindBoard(old(boards), boardId).None? ==>
        r == Err(Unhandled) && ev == None && boards == old(boards) && nextId == old(nextId)
      ensures FindBoard(old(boards), boardId).Some? ==>
        var k := FindBoard(old(boards), boardId).value;
        var grown := old(boards)[k].(columns := old(boards)[k].columns + [Column(old(nextId), name)]);
        r == Ok(grown) && boards == old(boards)[k := grown] &&
        ev == Some(Emit(BoardRoom(boardId), ColumnUpdated(ColumnPayload(None, name))))
    {
      match FindBoard(boards, boardId)
      case None =>
        r, ev := Err(Unhandled), None;
      case Some(k) =>
        var columnId := FreshId();
        var grown := boards[k].(columns := boards[k].columns + [Column(columnId, name)]);
        assert boards[k] in boards;
        assert BoardIdsBelow(boards[k], columnId);
        ReplaceBoard(k, grown);
        r, ev := Ok(grown), Some(Emit(BoardRoom(boardId), ColumnUpdated(ColumnPayload(None, name))));
    }

    /** PUT /api/boards/:boardId/columns/:columnId: renames the column with
        that id, or answers 404 when the board has none. */
    method RenameColumn(boardId: Id, columnId: Id, name: string) returns (r: Result<Board>, ev: Option<Emit>)
      requires Valid()
      modifies this
      ensures Valid() && tasks == old(tasks) && nextId == old(nextId)
      ensures FindBoard(old(boards), boardId).None? ==>
        r == Err(Unhandled) && ev == None && boards == old(boards)
      ensures FindBoard(old(boards), boardId).Some? ==>
        var k := FindBoard(old(boards), boardId).value;
        var cols := old(boards)[k].columns;
        match FindColumn(cols, columnId)
        case None => r == Err(NotFound) && ev == None && boards == old(boards)
        case Some(j) =>
          var renamed := old(boards)[k].(columns := RenameColumnAt(cols, j, name));
          r == Ok(renamed) && boards == old(boards)[k := renamed] &&
          ev == Some(Emit(BoardRoom(boardId), ColumnUpdated(ColumnPayload(Some(columnId), name))))
    {
      match FindBoard(boards, boardId)
      case None =>
        r, ev := Err(Unhandled), None;
      case Some(k) =>
        var board := boards[k];
        match FindColumn(board.columns, columnId)
        case None =>
          r, ev := Err(NotFound), None;
        case Some(j) =>
          var renamed := board.(columns := RenameColumnAt(board.columns, j, name));
          assert boards[k] in boards;
          ReplaceBoard(k, renamed);
          r, ev := Ok(renamed), Some(Emit(BoardRoom(boardId), ColumnUpdated(ColumnPayload(Some(columnId), name))));
    }

    /** DELETE /api/boards/:boardId/columns/:columnId: drops every column with
        that id from the board, then every task in the whole table whose
        `columnId` matches, and publishes `column-deleted`. */
    method DeleteColumn(boardId: Id, columnId: Id) returns (r: Result<Board>, ev: Option<Emit>)
      requires Valid()
      modifies this
      ensures Valid() && nextId == old(nextId)
      ensures FindBoard(old(boards), boardId).None? ==>
        r == Err(Unhandled) && ev == None && boards == old(boards) && tasks == old(tasks)
      ensures FindBoard(old(boards), boardId).Some? ==>
        var k := FindBoard(old(boards), boardId).value;
        var trimmed := old(boards)[k].(columns := WithoutColumnId(old(boards)[k].columns, columnId));
        r == Ok(trimmed) && boards == old(boards)[k := trimmed] &&
        tasks == WithoutColumn(old(tasks), columnId) &&
        ev == Some(Emit(BoardRoom(boardId), ColumnDeleted(Some(columnId))))
      ensures r.Ok? ==> forall t :: t in tasks ==> t.columnId != columnId
    {
      match FindBoard(boards, boardId)
      case None =>
        r, ev := Err(Unhandled), None;
      case Some(k) =>
        var board := boards[k];
        var trimmed := board.(columns := WithoutColumnId(board.columns, columnId));
        assert boards[k] in boards;
        WithoutColumnIdUnique(board.columns, columnId);
        ReplaceBoard(k, trimmed);
        SelectUnique(tasks, ColumnField, columnId, false);
        tasks := WithoutColumn(tasks, columnId);
        r, ev := Ok(trimmed), Some(Emit(BoardRoom(boardId), ColumnDeleted(Some(columnId))));
    }

    /** Stores `b` in place of the board at position `k`, which has the same id. */
    method ReplaceBoard(k: nat, b: Board)
      requires Valid() && k < |boards| && b.id == boards[k].id && BoardIdsBelow(b, nextId)
      modifies this
      ensures Valid() && boards == old(boards)[k := b]
      ensures tasks == old(tasks) && nextId == old(nextId)
    {
      ghost var before := boards;
      boards := boards[k := b];
      forall i, j | 0 <= i < j < |boards| ensures boards[i].id != boards[j].id {
        assert boards[i].id == before[i].id && boards[j].id == before[j].id;
      }
      forall c | c in boards ensures BoardIdsBelow(c, nextId) {
        var i :| 0 <= i < |boards| && boards[i] == c;
        if i != k {
          assert before[i] in before;
        }
      }
    }

    // ---- backend/routes/taskRoutes.js ----

    /** GET /api/tasks/:boardId */
    method ListTasks(boardId: Id) returns (r: seq<Task>)
      ensures r == TasksOf(tasks, boardId)
      ensures forall t :: t in r <==> t in tasks && t.boardId == boardId
    {
      r := TasksOf(tasks, boardId);
    }

    /** POST /api/tasks: validates the body against the schema, appends the
        task and publishes `new-task` to its board's room. The board and
        column ids are not checked against existing documents. */
    method CreateTask(input: TaskInput) returns (r: Result<Task>, ev: Option<Emit>)
      requires Valid()
      modifies this
      ensures Valid() && boards == old(boards)
      ensures r == TaskFromInput(old(nextId), input)
      ensures r.Err? ==> ev == None && tasks == old(tasks) && nextId == old(nextId)
      ensures r.Ok? ==>
        tasks == old(tasks) + [r.value] &&
        ev == Some(Emit(BoardRoom(r.value.boardId), NewTask(Some(r.value)))) &&
        r.value in TasksOf(tasks, r.value.boardId)
    {
      r := TaskFromInput(nextId, input);
      if r.Err? {
        ev := None;
      } else {
        var id := FreshId();
        var t := r.value;
        assert forall u :: u in tasks ==> u.id < t.id;
        tasks := tasks + [t];
        ev := Some(Emit(BoardRoom(t.boardId), NewTask(Some(t))));
      }
    }

    /** PUT /api/tasks/:id: merges the body into the stored task (no
        validation) and publishes `task-updated` with the whole new record to
        the room of its possibly changed board; 404 when the id is unknown. */
    method UpdateTask(id: Id, patch: TaskPatch) returns (r: Result<Task>, ev: Option<Emit>)
      requires Valid()
      modifies this
      ensures Valid() && boards == old(boards) && nextId == old(nextId)
      ensures FindTask(old(tasks), id).None? ==>
        r == Err(NotFound) && ev == None && tasks == old(tasks)
      ensures FindTask(old(tasks), id).Some? ==>
        var k := FindTask(old(tasks), id).value;
        var updated := Merge(old(tasks)[k], patch);
        r == Ok(updated) && tasks == old(tasks)[k := updated] &&
        ev == Some(Emit(BoardRoom(updated.boardId), TaskUpdated(Some(updated))))
    {
      match FindTask(tasks, id)
      case None =>
        r, ev := Err(NotFound), None;
      case Some(k) =>
        var updated := Merge(tasks[k], patch);
        ghost var before := tasks;
        tasks := tasks[k := updated];
        forall i, j | 0 <= i < j < |tasks| ensures tasks[i].id != tasks[j].id {
          assert tasks[i].id == before[i].id && tasks[j].id == before[j].id;
        }
        forall t | t in tasks ensures t.id < nextId {
          var i :| 0 <= i < |tasks| && tasks[i] == t;
          assert before[i] in before;
        }
        r, ev := Ok(updated), Some(Emit(BoardRoom(updated.boardId), TaskUpdated(Some(updated))));
    }

    /** DELETE /api/tasks/:id: removes the task and publishes `task-deleted`
        with the board's ObjectId as the room key, which reaches no page; 404
        when the id is unknown. Files referenced by its descriptions are left
        in place. */
    method DeleteTask(id: Id) returns (r: Result<Id>, ev: Option<Emit>)
      requires Valid()
      modifies this
      ensures Valid() && boards == old(boards) && nextId == old(nextId)
      ensures tasks == WithoutTask(old(tasks), id)
      ensures FindTask(old(tasks), id).None? ==>
        r == Err(NotFound) && ev == None && tasks == old(tasks)
      ensures FindTask(old(tasks), id).Some? ==>
        var k := FindTask(old(tasks), id).value;
        r == Ok(id) && tasks == old(tasks)[..k] + old(tasks)[k+1..] &&
        ev == Some(Emit(ObjectIdKey(old(tasks)[k].boardId), TaskDeleted(Some(id))))
      ensures ev.Some? ==> forall b :: !Reaches(ev.value.room, b)
    {
      match FindTask(tasks, id)
      case None =>
        WithoutAbsentTask(tasks, id);
        r, ev := Err(NotFound), None;
      case Some(k) =>
        var task := tasks[k];
        WithoutPresentTask(tasks, k);
        SelectUnique(tasks, IdField, id, false);
        tasks := WithoutTask(tasks, id);
        r, ev := Ok(id), Some(Emit(ObjectIdKey(task.boardId), TaskDeleted(Some(id))));
    }
  }

  /** Removing the board at position `k` keeps board ids distinct and keeps
      only boards that were there, none with the removed id. */
  lemma RemoveBoardAt(bs: seq<Board>, k: nat)
    requires UniqueBoardIds(bs) && k < |bs|
    ensures UniqueBoardIds(bs[..k] + bs[k+1..])
    ensures forall b :: b in bs[..k] + bs[k+1..] ==> b in bs && b.id != bs[k].id
  {
    var r := bs[..k] + bs[k+1..];
    forall i | 0 <= i < |r| ensures r[i] == bs[if i < k then i else i + 1] {
    }
    forall i, j | 0 <= i < j < |r| ensures r[i].id != r[j].id {
      assert r[i] == bs[if i < k then i else i + 1];
      assert r[j] == bs[if j < k then j else j + 1];
    }
    forall b | b in r ensures b in bs && b.id != bs[k].id {
      var i :| 0 <= i < |r| && r[i] == b;
      assert r[i] == bs[if i < k then i else i + 1];
    }
  }

  /** The board list on a new board: with one task in "To Do" it shows 0%
      progress, and 100% once the `{ columnId }` update moves the task to
      "Done". */
  lemma NewBoardProgress(b: Board, t: Task)
    requires |b.columns| == 3 && DoneColumnIndex(b.columns) == Some(2)
    requires b.columns[0].id != b.columns[2].id
    requires t.boardId == b.id && t.columnId == b.columns[0].id
    ensures BoardProgress(b, [t]) == 0
    ensures BoardProgress(b, [Merge(t, EMPTY_PATCH.(columnId := Some(b.columns[2].id)))]) == 100
  {
    OneTaskProgress(b, t, 2);
    OneTaskProgress(b, Merge(t, EMPTY_PATCH.(columnId := Some(b.columns[2].id))), 2);
  }

  /** A board holding a single task is 100% done when the task sits in the
      done column and 0% otherwise. */
  lemma OneTaskProgress(b: Board, t: Task, k: nat)
    requires DoneColumnIndex(b.columns) == Some(k) && t.boardId == b.id
    ensures BoardProgress(b, [t]) == if t.columnId == b.columns[k].id then 100 else 0
  {
    assert [t][1..] == [];
    assert TasksOf([t], b.id) == [t];
  }
}
