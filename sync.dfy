/** How a board page that holds exactly the server's tasks for its board
    follows the server through the events the routes publish, and where it
    does not. The routes publish to the room of a task's board
    (backend/routes/taskRoutes.js, backend/routes/boardRoutes.js); the page
    applies what it receives (frontend/src/pages/KanbanBoardPage.jsx). */
module Sync {
  import opened Common
  import opened TaskSchema
  import opened TaskTable
  import opened Boards
  import opened Events
  import opened Reconciler

  /** The page for board `b` lists exactly the store's tasks of `b`, in store order. */
  predicate InSync(v: View, store: seq<Task>, b: Id)
  {
    v.tasks == TasksOf(store, b)
  }

  /** Replacing by id distributes over concatenation. */
  lemma {:induction false} ReplaceByIdAppend(a: seq<Task>, c: seq<Task>, t: Task)
    ensures ReplaceById(a + c, t) == ReplaceById(a, t) + ReplaceById(c, t)
  {
    var l, r := ReplaceById(a + c, t), ReplaceById(a, t) + ReplaceById(c, t);
    assert |l| == |r|;
    forall i | 0 <= i < |l| ensures l[i] == r[i] {
      if i < |a| {
        assert (a + c)[i] == a[i];
      } else {
        assert (a + c)[i] == c[i - |a|];
      }
    }
  }

  /** With unique ids, a task that has the id of the one at position `k` is that task. */
  lemma SameIdSameTask(s: seq<Task>, k: nat, t: Task)
    requires UniqueIds(s) && k < |s| && t in s && t.id == s[k].id
    ensures t == s[k]
  {
  }

  /** A new task reaches the page of its own board and leaves it in sync. */
  lemma CreateMirrored(v: View, store: seq<Task>, t: Task)
    requires InSync(v, store, t.boardId)
    ensures InSync(OnEvent(v, NewTask(Some(t))), store + [t], t.boardId)
  {
    SelectAppend(store, [t], BoardField, t.boardId, true);
    assert Select([t], BoardField, t.boardId, true) == [t] by {
      assert [t][1..] == [];
    }
  }

  /** Another board's page gets no event and stays in sync, because the new
      task is not one of its tasks. */
  lemma CreateElsewhere(v: View, store: seq<Task>, t: Task, b: Id)
    requires InSync(v, store, b) && t.boardId != b
    ensures InSync(v, store + [t], b)
  {
    SelectAppend(store, [t], BoardField, b, true);
    SelectDropsOne(t, BoardField, b, true);
  }

  /** `new-task` is appended without looking for its id: a page that gets the
      same event twice lists one more task than the store. */
  lemma RedeliveryBreaksSync(v: View, store: seq<Task>, t: Task)
    requires InSync(v, store, t.boardId)
    ensures var twice := OnEvent(OnEvent(v, NewTask(Some(t))), NewTask(Some(t)));
      twice.tasks == TasksOf(store + [t], t.boardId) + [t] &&
      !InSync(twice, store + [t], t.boardId)
  {
    CreateMirrored(v, store, t);
  }

  /** An update that keeps the task on the page's board reaches the page and
      leaves it in sync. */
  lemma {:induction false} UpdateMirrored(store: seq<Task>, k: nat, m: Task, b: Id)
    requires UniqueIds(store) && k < |store|
    requires store[k].id == m.id && store[k].boardId == b && m.boardId == b
    ensures TasksOf(store[k := m], b) == ReplaceById(TasksOf(store, b), m)
  {
    var x, rest := store[0], store[1..];
    assert store == [x] + rest;
    assert UniqueIds(rest) by {
      forall i, j | 0 <= i < j < |rest| ensures rest[i].id != rest[j].id {
        assert rest[i] == store[i + 1] && rest[j] == store[j + 1];
      }
    }
    if k == 0 {
      assert store[k := m] == [m] + rest;
      forall i | 0 <= i < |rest| ensures rest[i].id != m.id {
        assert rest[i] == store[i + 1];
      }
      UpdateAtHead(x, rest, m, b);
    } else {
      assert store[k := m] == [x] + rest[k - 1 := m];
      assert x.id != m.id by {
        assert store[k] == rest[k - 1];
      }
      UpdateMirrored(rest, k - 1, m, b);
      UpdateBehindHead(x, rest, rest[k - 1 := m], m, b);
    }
  }

  /** The updated task is the first one and no other task has its id. */
  lemma UpdateAtHead(x: Task, rest: seq<Task>, m: Task, b: Id)
    requires x.id == m.id && x.boardId == b && m.boardId == b
    requires forall i :: 0 <= i < |rest| ==> rest[i].id != m.id
    ensures TasksOf([m] + rest, b) == ReplaceById(TasksOf([x] + rest, b), m)
  {
    var kept := Select(rest, BoardField, b, true);
    SelectCons(m, rest, BoardField, b, true);
    SelectCons(x, rest, BoardField, b, true);
    assert ReplaceById(kept, m) == kept by {
      forall i | 0 <= i < |kept| ensures kept[i].id != m.id {
        assert kept[i] in kept;
      }
      ReplaceAbsent(kept, m);
    }
    ReplaceByIdAppend([x], kept, m);
    assert ReplaceById([x], m) == [m];
  }

  /** The updated task comes after a first task with another id. */
  lemma UpdateBehindHead(x: Task, rest: seq<Task>, rest': seq<Task>, m: Task, b: Id)
    requires x.id != m.id
    requires TasksOf(rest', b) == ReplaceById(TasksOf(rest, b), m)
    ensures TasksOf([x] + rest', b) == ReplaceById(TasksOf([x] + rest, b), m)
  {
    var head := if x.boardId == b then [x] else [];
    SelectCons(x, rest', BoardField, b, true);
    SelectCons(x, rest, BoardField, b, true);
    assert ReplaceById(head, m) == head by {
      ReplaceAbsent(head, m);
    }
    ReplaceByIdAppend(head, TasksOf(rest, b), m);
  }

  /** The page-level form: the update event that the server publishes to the
      page's room keeps the page in sync. */
  lemma UpdateKeepsSync(v: View, store: seq<Task>, k: nat, p: TaskPatch, b: Id)
    requires UniqueIds(store) && k < |store|
    requires InSync(v, store, b) && store[k].boardId == b && Merge(store[k], p).boardId == b
    ensures InSync(OnEvent(v, TaskUpdated(Some(Merge(store[k], p)))), store[k := Merge(store[k], p)], b)
  {
    UpdateMirrored(store, k, Merge(store[k], p), b);
  }

  /** An update that moves a task to another board is published to the new
      board's room only: the old board's page keeps a task the store no
      longer lists for that board. */
  lemma MovedAwayLingers(v: View, store: seq<Task>, k: nat, m: Task)
    requires UniqueIds(store) && k < |store|
    requires InSync(v, store, store[k].boardId)
    requires m.id == store[k].id && m.boardId != store[k].boardId
    ensures store[k] in v.tasks
    ensures store[k] !in TasksOf(store[k := m], store[k].boardId)
  {
  }

  /** The optimistic move gives the page what the server stores once it has
      applied the `{ columnId }` body. */
  lemma {:induction false} MoveMatchesServer(store: seq<Task>, k: nat, c: Id, b: Id)
    requires UniqueIds(store) && k < |store| && store[k].boardId == b
    ensures var moved := Merge(store[k], EMPTY_PATCH.(columnId := Some(c)));
      moved == store[k].(columnId := c) &&
      MoveTask(TasksOf(store, b), store[k].id, c) == TasksOf(store[k := moved], b)
  {
    var moved := Merge(store[k], EMPTY_PATCH.(columnId := Some(c)));
    var mine := TasksOf(store, b);
    UpdateMirrored(store, k, moved, b);
    var l, r := MoveTask(mine, store[k].id, c), ReplaceById(mine, moved);
    forall i | 0 <= i < |mine| ensures l[i] == r[i] {
      if mine[i].id == store[k].id {
        assert mine[i] in mine;
        SameIdSameTask(store, k, mine[i]);
      }
    }
  }

  /** A deletion, once delivered to the page of the task's board, leaves it
      in sync. */
  lemma DeleteKeepsSync(v: View, store: seq<Task>, id: Id, b: Id)
    requires InSync(v, store, b)
    ensures InSync(OnEvent(v, TaskDeleted(Some(id))), WithoutTask(store, id), b)
  {
    SelectCommute(store, IdField, id, false, BoardField, b, true);
  }

  /** `task-deleted` is sent with an ObjectId room key and reaches no page:
      every page of the task's board other than the one that deleted it (which
      drops the task itself once the server accepts) keeps listing it. */
  lemma UndeliveredDeleteLingers(v: View, store: seq<Task>, k: nat)
    requires k < |store| && InSync(v, store, store[k].boardId)
    ensures store[k] in v.tasks
    ensures store[k] !in TasksOf(WithoutTask(store, store[k].id), store[k].boardId)
  {
  }

  /** Adding a column publishes `column-updated` with the new column alone,
      so the board's other pages hold that payload in place of the board; a
      later `column-deleted` then makes its updater throw and the page crashes. */
  lemma AddThenDeleteCrashes(v: View, name: string, c: Option<Id>)
    ensures var added := OnEvent(v, ColumnUpdated(ColumnPayload(None, name)));
      added.board == Replaced(ColumnPayload(None, name)) &&
      OnEvent(added, ColumnDeleted(c)).board == Crashed
  {
  }

  /** A column deletion on a rendered page removes from it exactly what the
      cascade removes from the store's tasks of the board. */
  lemma ColumnDeleteKeepsSync(v: View, store: seq<Task>, c: Id, b: Id)
    requires InSync(v, store, b)
    ensures InSync(OnEvent(v, ColumnDeleted(Some(c))), WithoutColumn(store, c), b)
  {
    SelectCommute(store, ColumnField, c, false, BoardField, b, true);
  }

  /** After any column change published as `column-updated`, the page stops
      rendering its board until it fetches it again. */
  lemma ColumnUpdateBlanks(v: View, id: Option<Id>, name: string)
    ensures !Renders(OnEvent(v, ColumnUpdated(ColumnPayload(id, name))).board)
    ensures OnEvent(v, ColumnUpdated(ColumnPayload(id, name))).tasks == v.tasks
  {
  }
}
