/** Operations on the task table, shared by the task routes, the board routes'
    column cascade and the client's task list: selecting by a field, finding
    by id, and merging an update body into a stored task. */
module TaskTable {
  import opened Common
  import opened TaskSchema

  /** The id-valued fields a query can select on. */
  datatype TaskField = IdField | BoardField | ColumnField

  function FieldOf(t: Task, f: TaskField): Id
  {
    match f
    case IdField => t.id
    case BoardField => t.boardId
    case ColumnField => t.columnId
  }

  /** `s.filter(t => (t[f] === v) === keep)`: with `keep` the tasks whose
      field equals `v`, without it the others. */
  function Select(s: seq<Task>, f: TaskField, v: Id, keep: bool): (r: seq<Task>)
    ensures |r| <= |s|
    ensures forall t {:trigger t in r} :: t in r <==> t in s && (FieldOf(t, f) == v) == keep
  {
    if s == [] then []
    else (if (FieldOf(s[0], f) == v) == keep then [s[0]] else []) + Select(s[1..], f, v, keep)
  }

  /** `Task.find({ boardId })` */
  function TasksOf(s: seq<Task>, boardId: Id): (r: seq<Task>)
    ensures forall t :: t in r <==> t in s && t.boardId == boardId
  {
    Select(s, BoardField, boardId, true)
  }

  /** `prev.filter(t => t._id !== id)` */
  function WithoutTask(s: seq<Task>, id: Id): (r: seq<Task>)
    ensures forall t :: t in r <==> t in s && t.id != id
  {
    Select(s, IdField, id, false)
  }

  /** `Task.deleteMany({ columnId })` and `prev.filter(t => t.columnId !== columnId)` */
  function WithoutColumn(s: seq<Task>, columnId: Id): (r: seq<Task>)
    ensures forall t :: t in r <==> t in s && t.columnId != columnId
  {
    Select(s, ColumnField, columnId, false)
  }

  predicate UniqueIds(s: seq<Task>)
  {
    forall i, j :: 0 <= i < j < |s| ==> s[i].id != s[j].id
  }

  /** The position of the first task with the given id (`Task.findById`). */
  function FindTask(s: seq<Task>, id: Id): (r: Option<nat>)
    ensures r.None? <==> forall i :: 0 <= i < |s| ==> s[i].id != id
    ensures r.Some? ==> r.value < |s| && s[r.value].id == id &&
                        forall i :: 0 <= i < r.value ==> s[i].id != id
  {
    if s == [] then None
    else if s[0].id == id then Some(0)
    else match FindTask(s[1..], id)
      case None => None
      case Some(k) => Some(k + 1)
  }

  // ---- Properties of Select ----

  /** Selection keeps store order: it distributes over concatenation. */
  lemma {:induction false} SelectAppend(a: seq<Task>, b: seq<Task>, f: TaskField, v: Id, keep: bool)
    ensures Select(a + b, f, v, keep) == Select(a, f, v, keep) + Select(b, f, v, keep)
  {
    if a == [] {
      assert a + b == b;
    } else {
      var x, t := a[0], a[1..];
      assert a == [x] + t;
      assert a + b == [x] + (t + b);
      SelectCons(x, t + b, f, v, keep);
      SelectCons(x, t, f, v, keep);
      SelectAppend(t, b, f, v, keep);
      var h := if (FieldOf(x, f) == v) == keep then [x] else [];
      assert h + (Select(t, f, v, keep) + Select(b, f, v, keep)) ==
             (h + Select(t, f, v, keep)) + Select(b, f, v, keep);
    }
  }

  /** When every task passes, selection changes nothing. */
  lemma {:induction false} SelectAll(s: seq<Task>, f: TaskField, v: Id, keep: bool)
    requires forall i :: 0 <= i < |s| ==> (FieldOf(s[i], f) == v) == keep
    ensures Select(s, f, v, keep) == s
  {
    if s != [] {
      SelectAll(s[1..], f, v, keep);
    }
  }

  /** Selecting twice on the same condition is selecting once. */
  lemma {:induction false} SelectIdempotent(s: seq<Task>, f: TaskField, v: Id, keep: bool)
    ensures Select(Select(s, f, v, keep), f, v, keep) == Select(s, f, v, keep)
  {
    var r := Select(s, f, v, keep);
    forall i | 0 <= i < |r| ensures (FieldOf(r[i], f) == v) == keep {
      assert r[i] in r;
    }
    SelectAll(r, f, v, keep);
  }

  /** Two selections commute, so the order of filters does not matter. */
  lemma {:induction false} SelectCommute(s: seq<Task>, f: TaskField, v: Id, keep: bool,
                                         g: TaskField, w: Id, keep': bool)
    ensures Select(Select(s, f, v, keep), g, w, keep') == Select(Select(s, g, w, keep'), f, v, keep)
  {
    if s != [] {
      var x, t := s[0], s[1..];
      assert s == [x] + t;
      SelectCommute(t, f, v, keep, g, w, keep');
      SelectCons(x, t, f, v, keep);
      SelectCons(x, t, g, w, keep');
      var tf, tg := Select(t, f, v, keep), Select(t, g, w, keep');
      if (FieldOf(x, f) == v) == keep {
        SelectCons(x, tf, g, w, keep');
      } else {
        assert [] + tf == tf;
      }
      if (FieldOf(x, g) == w) == keep' {
        SelectCons(x, tg, f, v, keep);
      } else {
        assert [] + tg == tg;
      }
    }
  }

  /** Selection on a list with a known first task. */
  lemma SelectCons(x: Task, rest: seq<Task>, f: TaskField, v: Id, keep: bool)
    ensures Select([x] + rest, f, v, keep) ==
      (if (FieldOf(x, f) == v) == keep then [x] else []) + Select(rest, f, v, keep)
  {
    assert ([x] + rest)[1..] == rest;
  }

  /** Removing an id that is absent leaves the list as it was. */
  lemma {:induction false} WithoutAbsentTask(s: seq<Task>, id: Id)
    requires FindTask(s, id).None?
    ensures WithoutTask(s, id) == s
  {
    SelectAll(s, IdField, id, false);
  }

  /** Selection around a task that fails the condition: the tasks before it
      and after it are selected separately. */
  lemma {:induction false} SelectAround(s: seq<Task>, k: nat, f: TaskField, v: Id, keep: bool)
    requires k < |s| && (FieldOf(s[k], f) == v) != keep
    ensures Select(s, f, v, keep) == Select(s[..k], f, v, keep) + Select(s[k+1..], f, v, keep)
  {
    var before, here, after := s[..k], [s[k]], s[k+1..];
    var rest := here + after;
    assert s == before + rest by {
      assert s == s[..k] + s[k..];
      assert s[k..] == rest;
    }
    assert Select(rest, f, v, keep) == Select(after, f, v, keep) by {
      SelectDropsOne(s[k], f, v, keep);
      SelectAppend(here, after, f, v, keep);
    }
    SelectAppend(before, rest, f, v, keep);
  }

  /** With unique ids, removing an id that is present removes exactly the
      task at its position and keeps the rest in order. */
  lemma {:induction false} WithoutPresentTask(s: seq<Task>, k: nat)
    requires UniqueIds(s) && k < |s|
    ensures WithoutTask(s, s[k].id) == s[..k] + s[k+1..]
    ensures |WithoutTask(s, s[k].id)| == |s| - 1
  {
    SelectAround(s, k, IdField, s[k].id, false);
    OthersKept(s, k, s[..k], 0);
    OthersKept(s, k, s[k+1..], k + 1);
  }

  /** A one-task list keeps its task exactly when the task passes. */
  lemma SelectOne(t: Task, f: TaskField, v: Id, keep: bool)
    ensures Select([t], f, v, keep) == if (FieldOf(t, f) == v) == keep then [t] else []
  {
    assert [t][1..] == [];
  }

  /** A one-task list loses its task when the task fails the condition. */
  lemma SelectDropsOne(t: Task, f: TaskField, v: Id, keep: bool)
    requires (FieldOf(t, f) == v) != keep
    ensures Select([t], f, v, keep) == []
  {
    SelectOne(t, f, v, keep);
  }

  /** With unique ids, a slice that avoids position `k` keeps all its tasks
      when the id found at `k` is removed. */
  lemma OthersKept(s: seq<Task>, k: nat, part: seq<Task>, lo: nat)
    requires UniqueIds(s) && k < |s| && lo + |part| <= |s|
    requires lo + |part| <= k || k < lo
    requires forall i :: 0 <= i < |part| ==> part[i] == s[lo + i]
    ensures Select(part, IdField, s[k].id, false) == part
  {
    forall i | 0 <= i < |part| ensures (FieldOf(part[i], IdField) == s[k].id) == false {
      assert part[i] == s[lo + i];
    }
    SelectAll(part, IdField, s[k].id, false);
  }

  /** Selection keeps ids unique. */
  lemma {:induction false} SelectUnique(s: seq<Task>, f: TaskField, v: Id, keep: bool)
    requires UniqueIds(s)
    ensures UniqueIds(Select(s, f, v, keep))
  {
    if s != [] {
      SelectUnique(s[1..], f, v, keep);
      var r := Select(s[1..], f, v, keep);
      forall t | t in r ensures t.id != s[0].id {
        var j :| 0 <= j < |s[1..]| && s[1..][j] == t;
        assert s[j + 1] == t;
      }
    }
  }

  // ---- Update bodies ----

  /** The fields of an update body that the schema keeps (`_id` and
      `createdAt` are not modelled). Absent fields are `None`. */
  datatype TaskPatch = TaskPatch(
    boardId: Option<Id>,
    columnId: Option<Id>,
    title: Option<string>,
    descriptions: Option<seq<DescriptionInput>>,
    priority: Option<string>)

  const EMPTY_PATCH := TaskPatch(None, None, None, None, None)

  function Pick<T>(given: Option<T>, current: T): T
  {
    match given case Some(x) => x case None => current
  }

  /** `findByIdAndUpdate(id, body)`: every field present in the body is set,
      every other field is kept. Update validators do not run, so nothing is
      checked against the schema's enum or required rules. */
  function Merge(t: Task, p: TaskPatch): (r: Task)
    ensures r.id == t.id
    ensures p.boardId.None? ==> r.boardId == t.boardId
    ensures p.columnId.None? ==> r.columnId == t.columnId
    ensures p.title.None? ==> r.title == t.title
    ensures p.descriptions.None? ==> r.descriptions == t.descriptions
    ensures p.priority.None? ==> r.priority == t.priority
    ensures p.boardId.Some? ==> r.boardId == p.boardId.value
    ensures p.columnId.Some? ==> r.columnId == p.columnId.value
    ensures p.title.Some? ==> r.title == p.title.value
    ensures p.descriptions.Some? ==> r.descriptions == CastDescriptions(p.descriptions.value)
    ensures p.priority.Some? ==> r.priority == p.priority.value
  {
    Task(
      t.id,
      Pick(p.boardId, t.boardId),
      Pick(p.columnId, t.columnId),
      Pick(p.title, t.title),
      match p.descriptions case Some(ds) => CastDescriptions(ds) case None => t.descriptions,
      Pick(p.priority, t.priority))
  }

  /** Applying the same body twice stores what applying it once stores. */
  lemma MergeIdempotent(t: Task, p: TaskPatch)
    ensures Merge(Merge(t, p), p) == Merge(t, p)
  {
  }

  /** An empty body leaves the task as it was. */
  lemma MergeEmpty(t: Task)
    ensures Merge(t, EMPTY_PATCH) == t
  {
  }

  /** A body whose title is non-empty and whose priority is in the enum keeps
      a valid task valid. */
  lemma MergeKeepsValid(t: Task, p: TaskPatch)
    requires ValidTask(t)
    requires p.title.None? || p.title.value != ""
    requires p.priority.None? || ValidPriority(p.priority.value)
    ensures ValidTask(Merge(t, p))
  {
  }

  /** Because update validators do not run, a body can store a priority that
      the schema's enum rejects at creation. */
  lemma MergeBypassesEnum(t: Task)
    ensures !ValidTask(Merge(t, EMPTY_PATCH.(priority := Some("Urgent"))))
  {
    assert "Urgent" != "Low" && "Urgent" != "Medium" && "Urgent" != "High";
  }
}
