/** The board document (backend/models/Board.js) and the pure parts of the
    board routes: seeding, renaming, the column edits, and the progress that
    the board list derives from the task table. */
module Boards {
  import opened Common
  import opened TaskSchema
  import opened TaskTable

  /** An embedded column subdocument. */
  datatype Column = Column(id: Id, name: string)

  /** A board document (`createdAt` is left out). The schema does not
      require a title, so it may be absent. */
  datatype Board = Board(id: Id, title: Option<string>, columns: seq<Column>)

  /** One entry of the board list: the board and, when the list came from
      the server's list route, its derived progress. */
  datatype ListedBoard = ListedBoard(board: Board, progress: Option<nat>)

  const SEED_COLUMN_NAMES: seq<string> := ["To Do", "In Progress", "Done"]

  /** A new board with its three seed columns, whose ids come from the store. */
  function NewBoard(id: Id, title: Option<string>, columnIds: seq<Id>): (b: Board)
    requires |columnIds| == |SEED_COLUMN_NAMES|
    ensures b.id == id && b.title == title
    ensures |b.columns| == |SEED_COLUMN_NAMES|
    ensures forall i :: 0 <= i < |b.columns| ==>
      b.columns[i].id == columnIds[i] && b.columns[i].name == SEED_COLUMN_NAMES[i]
  {
    Board(id, title, [
      Column(columnIds[0], SEED_COLUMN_NAMES[0]),
      Column(columnIds[1], SEED_COLUMN_NAMES[1]),
      Column(columnIds[2], SEED_COLUMN_NAMES[2])])
  }

  /** `req.body.title || board.title` */
  function RenamedTitle(current: Option<string>, given: Option<string>): (r: Option<string>)
    ensures Truthy(given) ==> r == given
    ensures !Truthy(given) ==> r == current
  {
    if Truthy(given) then given else current
  }

  /** Renaming twice with the same title gives what renaming once gives. */
  lemma RenamedTitleIdempotent(current: Option<string>, given: Option<string>)
    ensures RenamedTitle(RenamedTitle(current, given), given) == RenamedTitle(current, given)
  {
  }

  /** The position of the first board with the given id (`Board.findById`). */
  function FindBoard(bs: seq<Board>, id: Id): (r: Option<nat>)
    ensures r.None? <==> forall i :: 0 <= i < |bs| ==> bs[i].id != id
    ensures r.Some? ==> r.value < |bs| && bs[r.value].id == id &&
                        forall i :: 0 <= i < r.value ==> bs[i].id != id
  {
    if bs == [] then None
    else if bs[0].id == id then Some(0)
    else match FindBoard(bs[1..], id)
      case None => None
      case Some(k) => Some(k + 1)
  }

  /** The position of the first column with the given id (`columns.id(columnId)`). */
  function FindColumn(cols: seq<Column>, id: Id): (r: Option<nat>)
    ensures r.None? <==> forall i :: 0 <= i < |cols| ==> cols[i].id != id
    ensures r.Some? ==> r.value < |cols| && cols[r.value].id == id &&
                        forall i :: 0 <= i < r.value ==> cols[i].id != id
  {
    if cols == [] then None
    else if cols[0].id == id then Some(0)
    else match FindColumn(cols[1..], id)
      case None => None
      case Some(k) => Some(k + 1)
  }

  /** `column.name = name` on the column at position `k`. */
  function RenameColumnAt(cols: seq<Column>, k: nat, name: string): (r: seq<Column>)
    requires k < |cols|
    ensures |r| == |cols|
    ensures r[k] == Column(cols[k].id, name)
    ensures forall i :: 0 <= i < |cols| && i != k ==> r[i] == cols[i]
  {
    cols[k := Column(cols[k].id, name)]
  }

  /** `columns.filter(col => col._id !== id)` */
  function WithoutColumnId(cols: seq<Column>, id: Id): (r: seq<Column>)
    ensures |r| <= |cols|
    ensures forall c :: c in r <==> c in cols && c.id != id
  {
    if cols == [] then []
    else (if cols[0].id != id then [cols[0]] else []) + WithoutColumnId(cols[1..], id)
  }

  /** Column removal keeps the order of the remaining columns. */
  lemma {:induction false} WithoutColumnIdAppend(a: seq<Column>, b: seq<Column>, id: Id)
    ensures WithoutColumnId(a + b, id) == WithoutColumnId(a, id) + WithoutColumnId(b, id)
  {
    if a == [] {
      assert a + b == b;
    } else {
      assert (a + b)[1..] == a[1..] + b;
      WithoutColumnIdAppend(a[1..], b, id);
    }
  }

  /** Removing an absent column id changes nothing. */
  lemma {:induction false} WithoutAbsentColumnId(cols: seq<Column>, id: Id)
    requires FindColumn(cols, id).None?
    ensures WithoutColumnId(cols, id) == cols
  {
    if cols != [] {
      WithoutAbsentColumnId(cols[1..], id);
    }
  }

  predicate UniqueColumnIds(cols: seq<Column>)
  {
    forall i, j :: 0 <= i < j < |cols| ==> cols[i].id != cols[j].id
  }

  /** Column removal keeps column ids distinct. */
  lemma {:induction false} WithoutColumnIdUnique(cols: seq<Column>, id: Id)
    requires UniqueColumnIds(cols)
    ensures UniqueColumnIds(WithoutColumnId(cols, id))
  {
    if cols != [] {
      WithoutColumnIdUnique(cols[1..], id);
      var r := WithoutColumnId(cols[1..], id);
      forall c | c in r ensures c.id != cols[0].id {
        var j :| 0 <= j < |cols[1..]| && cols[1..][j] == c;
        assert cols[j + 1] == c;
      }
    }
  }

  predicate UniqueBoardIds(bs: seq<Board>)
  {
    forall i, j :: 0 <= i < j < |bs| ==> bs[i].id != bs[j].id
  }

  /** Every id the board holds was handed out before `next`, and its column
      ids are distinct. */
  predicate BoardIdsBelow(b: Board, next: nat)
  {
    b.id < next && UniqueColumnIds(b.columns) &&
    forall i :: 0 <= i < |b.columns| ==> b.columns[i].id < next
  }

  /** A new board whose ids are distinct and below `next` keeps the store's
      id invariant. */
  lemma NewBoardIdsBelow(id: Id, title: Option<string>, columnIds: seq<Id>, next: nat)
    requires |columnIds| == |SEED_COLUMN_NAMES| && id < next
    requires forall i :: 0 <= i < |columnIds| ==> columnIds[i] < next
    requires forall i, j :: 0 <= i < j < |columnIds| ==> columnIds[i] != columnIds[j]
    ensures BoardIdsBelow(NewBoard(id, title, columnIds), next)
  {
  }

  // ---- Progress ----

  /** `c.toLowerCase()` on one character; only ASCII letters are folded. */
  function LowerChar(c: char): char
  {
    if 'A' <= c <= 'Z' then (c as int + 32) as char else c
  }

  /** `name.toLowerCase()` */
  function ToLower(s: string): (r: string)
    ensures |r| == |s|
    ensures forall i :: 0 <= i < |s| ==> r[i] == LowerChar(s[i])
  {
    if s == [] then [] else [LowerChar(s[0])] + ToLower(s[1..])
  }

  /** `col.name.toLowerCase() === "done"` */
  predicate IsDoneName(name: string)
    ensures IsDoneName(name) ==> |name| == 4
  {
    ToLower(name) == "done"
  }

  /** A column counts as the done column exactly when its name spells "done"
      in any mix of cases. */
  lemma IsDoneNameCases(name: string)
    ensures IsDoneName(name) <==>
      |name| == 4 &&
      (name[0] == 'd' || name[0] == 'D') && (name[1] == 'o' || name[1] == 'O') &&
      (name[2] == 'n' || name[2] == 'N') && (name[3] == 'e' || name[3] == 'E')
  {
    var low := ToLower(name);
    if |name| == 4 {
      assert low == [low[0], low[1], low[2], low[3]];
    }
  }

  /** The position of the first done column (`columns.find(...)`). */
  function DoneColumnIndex(cols: seq<Column>): (r: Option<nat>)
    ensures r.None? <==> forall i :: 0 <= i < |cols| ==> !IsDoneName(cols[i].name)
    ensures r.Some? ==> r.value < |cols| && IsDoneName(cols[r.value].name) &&
                        forall i :: 0 <= i < r.value ==> !IsDoneName(cols[i].name)
  {
    if cols == [] then None
    else if IsDoneName(cols[0].name) then Some(0)
    else match DoneColumnIndex(cols[1..])
      case None => None
      case Some(k) => Some(k + 1)
  }

  /** The seed columns make the third one, "Done", the done column. */
  lemma NewBoardDoneColumn(id: Id, title: Option<string>, columnIds: seq<Id>)
    requires |columnIds| == |SEED_COLUMN_NAMES|
    ensures DoneColumnIndex(NewBoard(id, title, columnIds).columns) == Some(2)
  {
    var cols := NewBoard(id, title, columnIds).columns;
    NotDoneByLength(cols[0].name);
    NotDoneByLength(cols[1].name);
    assert cols[2].name == "Done";
    DoneNameIsDone();
    DoneAtThird(cols);
  }

  /** Three columns of which only the third is named "done". */
  lemma {:induction false} DoneAtThird(cols: seq<Column>)
    requires |cols| == 3
    requires !IsDoneName(cols[0].name) && !IsDoneName(cols[1].name) && IsDoneName(cols[2].name)
    ensures DoneColumnIndex(cols) == Some(2)
  {
    var r := DoneColumnIndex(cols);
    assert r.Some?;
    assert r.value != 0 && r.value != 1;
  }

  /** A name that is not four characters long cannot spell "done". */
  lemma NotDoneByLength(name: string)
    requires |name| != 4
    ensures !IsDoneName(name)
  {
    assert |ToLower(name)| != |"done"|;
  }

  /** The seed name "Done" spells "done". */
  lemma DoneNameIsDone()
    ensures IsDoneName("Done")
  {
    IsDoneNameCases("Done");
  }

  /** `Math.round((done / total) * 100)`, with 0 for an empty board, as
      integer arithmetic: the nearest whole percent, halves rounded up. */
  function RoundedPercent(done: nat, total: nat): (p: nat)
    requires done <= total
    ensures p <= 100
    ensures total == 0 ==> p == 0
    ensures total > 0 ==> -(total as int) <= 200 * done - 2 * total * p < total
    ensures total > 0 && done == total ==> p == 100
  {
    if total == 0 then 0
    else
      var p := (200 * done + total) / (2 * total);
      DivBounds(200 * done + total, 2 * total, p);
      DivBelow(200 * done + total, 2 * total, 101);
      if done == total then DivAtLeast(200 * done + total, 2 * total, 100); p else p
  }

  lemma DivBounds(x: nat, d: nat, q: nat)
    requires d > 0 && q == x / d
    ensures d * q <= x < d * q + d
  {
  }

  lemma MulMonotone(a: nat, b: nat, c: nat)
    requires b <= c
    ensures a * b <= a * c
  {
  }

  /** A quotient stays below `m` when the dividend does below `d * m`. */
  lemma DivBelow(x: nat, d: nat, m: nat)
    requires d > 0 && x < d * m
    ensures x / d < m
  {
    var q := x / d;
    DivBounds(x, d, q);
    if q >= m {
      MulMonotone(d, m, q);
    }
  }

  /** A quotient reaches `m` when the dividend reaches `d * m`. */
  lemma DivAtLeast(x: nat, d: nat, m: nat)
    requires d > 0 && d * m <= x
    ensures x / d >= m
  {
    var q := x / d;
    DivBounds(x, d, q);
    if q < m {
      MulMonotone(d, q + 1, m);
    }
  }

  /** The number of the board's tasks that sit in its done column. */
  function DoneCount(b: Board, tasks: seq<Task>): (n: nat)
    ensures n <= |TasksOf(tasks, b.id)|
    ensures DoneColumnIndex(b.columns).None? ==> n == 0
  {
    match DoneColumnIndex(b.columns)
    case None => 0
    case Some(k) => |Select(TasksOf(tasks, b.id), ColumnField, b.columns[k].id, true)|
  }

  /** The `progress` field the board list adds to every board. */
  function BoardProgress(b: Board, tasks: seq<Task>): (p: nat)
    ensures p <= 100
    ensures TasksOf(tasks, b.id) == [] ==> p == 0
    ensures DoneColumnIndex(b.columns).None? ==> p == 0
  {
    RoundedPercent(DoneCount(b, tasks), |TasksOf(tasks, b.id)|)
  }

  /** When every task of the board sits in its done column, progress is 100. */
  lemma AllDoneIsFull(b: Board, tasks: seq<Task>, k: nat)
    requires DoneColumnIndex(b.columns) == Some(k)
    requires TasksOf(tasks, b.id) != []
    requires forall t :: t in TasksOf(tasks, b.id) ==> t.columnId == b.columns[k].id
    ensures BoardProgress(b, tasks) == 100
  {
    var mine := TasksOf(tasks, b.id);
    var doneId := b.columns[k].id;
    assert Select(mine, ColumnField, doneId, true) == mine by {
      forall i | 0 <= i < |mine| ensures (FieldOf(mine[i], ColumnField) == doneId) == true {
        assert mine[i] in mine;
      }
      SelectAll(mine, ColumnField, doneId, true);
    }
    assert DoneCount(b, tasks) == |mine|;
  }
}
