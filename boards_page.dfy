/** The board list page (frontend/src/pages/BoardsPage.jsx): the list of
    boards it shows and how creating, deleting and the two list events
    change it. */
module BoardList {
  import opened Common
  import opened Boards

  /** `[...boards, newBoard]` */
  function AppendBoard(ls: seq<ListedBoard>, b: ListedBoard): (r: seq<ListedBoard>)
    ensures |r| == |ls| + 1 && r[..|ls|] == ls && r[|ls|] == b
  {
    ls + [b]
  }

  /** `boards.filter((b) => b._id !== id)`: both `deleteBoard` and the
      `board-deleted` handler. */
  function WithoutListed(ls: seq<ListedBoard>, id: Id): (r: seq<ListedBoard>)
    ensures |r| <= |ls|
    ensures forall b :: b in r <==> b in ls && b.board.id != id
  {
    if ls == [] then []
    else (if ls[0].board.id != id then [ls[0]] else []) + WithoutListed(ls[1..], id)
  }

  /** The events the page listens for. */
  datatype ListEvent = BoardCreated(board: ListedBoard) | BoardDeleted(id: Id)

  /** The `board-created` and `board-deleted` handlers. */
  function OnListEvent(ls: seq<ListedBoard>, e: ListEvent): (r: seq<ListedBoard>)
    ensures e.BoardCreated? ==> |r| == |ls| + 1 && r[..|ls|] == ls && r[|ls|] == e.board
    ensures e.BoardDeleted? ==> |r| <= |ls| && forall b :: b in r <==> b in ls && b.board.id != e.id
  {
    match e
    case BoardCreated(b) => AppendBoard(ls, b)
    case BoardDeleted(id) => WithoutListed(ls, id)
  }

  /** `createBoard`: the board the server returns is appended; it carries no
      progress, since only the list route computes one. */
  function AfterCreate(ls: seq<ListedBoard>, created: Board): (r: seq<ListedBoard>)
    ensures |r| == |ls| + 1 && r[..|ls|] == ls && r[|ls|] == ListedBoard(created, None)
  {
    AppendBoard(ls, ListedBoard(created, None))
  }

  // ---- Properties ----

  /** Removal keeps the order of the boards that stay: it distributes over
      concatenation. */
  lemma {:induction false} WithoutListedAppend(a: seq<ListedBoard>, b: seq<ListedBoard>, id: Id)
    ensures WithoutListed(a + b, id) == WithoutListed(a, id) + WithoutListed(b, id)
  {
    if a == [] {
      assert a + b == b;
    } else {
      assert (a + b)[1..] == a[1..] + b;
      WithoutListedAppend(a[1..], b, id);
    }
  }

  /** Removing an id no board has changes nothing. */
  lemma {:induction false} WithoutListedAbsent(ls: seq<ListedBoard>, id: Id)
    requires forall i :: 0 <= i < |ls| ==> ls[i].board.id != id
    ensures WithoutListed(ls, id) == ls
  {
    if ls != [] {
      WithoutListedAbsent(ls[1..], id);
    }
  }

  /** Removing the same id twice is removing it once. */
  lemma WithoutListedIdempotent(ls: seq<ListedBoard>, id: Id)
    ensures WithoutListed(WithoutListed(ls, id), id) == WithoutListed(ls, id)
  {
    var r := WithoutListed(ls, id);
    forall i | 0 <= i < |r| ensures r[i].board.id != id {
      assert r[i] in r;
    }
    WithoutListedAbsent(r, id);
  }

  /** No board other than the one at position `k` has its id. */
  lemma {:induction false} OthersHaveOtherIds(ls: seq<ListedBoard>, k: nat)
    requires k < |ls|
    requires forall i, j :: 0 <= i < j < |ls| ==> ls[i].board.id != ls[j].board.id
    ensures WithoutListed(ls[..k], ls[k].board.id) == ls[..k]
    ensures WithoutListed(ls[k + 1..], ls[k].board.id) == ls[k + 1..]
  {
    var id, before, after := ls[k].board.id, ls[..k], ls[k + 1..];
    forall i | 0 <= i < |before| ensures before[i].board.id != id {
      assert before[i] == ls[i];
    }
    WithoutListedAbsent(before, id);
    forall i | 0 <= i < |after| ensures after[i].board.id != id {
      assert after[i] == ls[k + 1 + i];
    }
    WithoutListedAbsent(after, id);
  }

  /** Removing the id of the board at position `k` removes that board and
      filters the boards before and after it separately. */
  lemma {:induction false} WithoutListedSplit(ls: seq<ListedBoard>, k: nat)
    requires k < |ls|
    ensures WithoutListed(ls, ls[k].board.id) ==
      WithoutListed(ls[..k], ls[k].board.id) + WithoutListed(ls[k + 1..], ls[k].board.id)
  {
    var id, before, here, after := ls[k].board.id, ls[..k], [ls[k]], ls[k + 1..];
    var rest := here + after;
    assert ls == before + rest by {
      assert ls == ls[..k] + ls[k..];
      assert ls[k..] == rest;
    }
    assert WithoutListed(here, id) == [] by {
      assert here[1..] == [];
    }
    assert WithoutListed(rest, id) == WithoutListed(after, id) by {
      WithoutListedAppend(here, after, id);
    }
    WithoutListedAppend(before, rest, id);
  }

  /** With distinct ids, removing the board at position `k` removes it and
      nothing else: the boards before and after it stay, unchanged and in
      order. */
  lemma {:induction false} WithoutListedAt(ls: seq<ListedBoard>, k: nat)
    requires k < |ls|
    requires forall i, j :: 0 <= i < j < |ls| ==> ls[i].board.id != ls[j].board.id
    ensures WithoutListed(ls, ls[k].board.id) == ls[..k] + ls[k + 1..]
  {
    WithoutListedSplit(ls, k);
    OthersHaveOtherIds(ls, k);
  }

  /** A board that is created and then deleted leaves the list as removing
      its id would have left it before. */
  lemma CreateThenDelete(ls: seq<ListedBoard>, b: ListedBoard)
    ensures OnListEvent(OnListEvent(ls, BoardCreated(b)), BoardDeleted(b.board.id)) ==
            WithoutListed(ls, b.board.id)
  {
    WithoutListedAppend(ls, [b], b.board.id);
    assert WithoutListed([b], b.board.id) == [] by {
      assert [b][1..] == [];
    }
  }

  /** `board-created` does not look for the board first: the same event
      delivered twice lists the board twice. */
  lemma CreatedTwiceListedTwice(ls: seq<ListedBoard>, b: ListedBoard)
    ensures OnListEvent(OnListEvent(ls, BoardCreated(b)), BoardCreated(b)) == ls + [b, b]
  {
  }
}
