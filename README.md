# Kanban board store and client reconciler

A Dafny model of a small Kanban application: an Express and MongoDB server
that stores boards (each with an ordered list of columns) and tasks, and a
React client whose board page follows the server through socket events.

The model covers:

- the **server store** (`Server.Store`): the board routes (list with derived
  progress, get, create with three seed columns, rename, delete, add, rename
  and delete a column with its task cascade) and the task routes (list by
  board, create, update by field merge, delete). Each route is a method that
  updates the store's two collections and returns the HTTP outcome and the
  event it publishes to a board's room.
- the **task schema** (`TaskSchema`): required fields, the priority enum and
  its default, and the defaults of a description entry.
- the **board page** (`Reconciler`): the five socket handlers as one pure
  transition `OnEvent`, the optimistic move, the drag-end decision, and the
  page's state cells as a class (`BoardPage`).
- the **task card and description modal** (`Content`, `Editor`): the
  priority cycle and colour, the code-block test, the image description
  format and how a description is shown, and the editor's list of
  description objects with add, remove, update, upload and cancel.
- the **board list page** (`BoardList`): create, delete and the
  `board-created` / `board-deleted` handlers.
- how a page that lists exactly the server's tasks of its board stays in
  step with the server through each published event, and where it does not
  (`Sync`).

Ids are natural numbers handed out by the store (`nextId`), standing for
MongoDB's fresh `ObjectId`s. Values the client may receive without a usable
field are `None`.

## Model

| member | source | states |
|---|---|---|
| TaskSchema.CastDescription | backend/models/Task.js:3-7 | an entry gets content "" and checked false when the body leaves them out |
| TaskSchema.CastDescriptions | backend/models/Task.js:20 | `descriptions` keeps its length and order, each entry cast with the defaults |
| Common.StartsWith | frontend/src/pages/KanbanBoardPage.jsx:265 | a text starts with a prefix exactly when it is at least as long and agrees with the prefix at every position of the prefix |
| TaskSchema.ValidPriority | backend/models/Task.js:21-25 | the priority enum holds exactly Low, Medium and High |
| TaskSchema.ValidTask | backend/models/Task.js:19-24 | a valid task has a non-empty title and a priority from the enum |
| TaskSchema.TaskFromInput | backend/models/Task.js:9-25 | a task is created exactly when boardId and columnId are given, the title is non-empty and the priority is absent or one of Low/Medium/High; it is then valid, carries the given fields, has no descriptions and defaults its priority to Low; otherwise the result is a validation error |
| TaskSchema.DescriptionFieldIgnored | backend/routes/taskRoutes.js:16-17 | the `description` text of a create body has no effect; the created task has no descriptions |
| TaskTable.Select | backend/routes/taskRoutes.js:9 | a filter on one id field: never longer than the table, and holds exactly the tasks passing the test |
| TaskTable.TasksOf | backend/routes/taskRoutes.js:9 | exactly the tasks whose boardId matches |
| TaskTable.WithoutTask | backend/routes/taskRoutes.js:49 | exactly the tasks with another id |
| TaskTable.WithoutColumn | backend/routes/boardRoutes.js:118 | exactly the tasks with another columnId |
| TaskTable.FindTask | backend/routes/taskRoutes.js:30 | absent exactly when no task has the id; otherwise the first position holding it |
| TaskTable.SelectAppend | backend/routes/taskRoutes.js:9 | a filter keeps store order: it distributes over concatenation |
| TaskTable.SelectIdempotent | backend/routes/taskRoutes.js:9 | filtering twice on the same test is filtering once |
| TaskTable.SelectCommute | backend/routes/boardRoutes.js:118 | two filters commute |
| TaskTable.SelectUnique | backend/routes/taskRoutes.js:49 | a filter keeps task ids unique |
| TaskTable.WithoutAbsentTask | backend/routes/taskRoutes.js:52-54 | removing an unknown id leaves the table unchanged |
| TaskTable.WithoutPresentTask | backend/routes/taskRoutes.js:47-51 | with unique ids, removing a present id removes exactly that task, keeping the rest in order |
| TaskTable.Merge | backend/routes/taskRoutes.js:30 | every field present in the body is overwritten, every absent field is kept, the id never changes |
| TaskTable.MergeIdempotent | backend/routes/taskRoutes.js:30 | the same body applied twice stores what it stores once |
| TaskTable.MergeEmpty | backend/routes/taskRoutes.js:30 | an empty body changes nothing |
| TaskTable.MergeKeepsValid | backend/models/Task.js:19-24 | a body with a non-empty title and an enum priority keeps a valid task valid |
| TaskTable.MergeBypassesEnum | backend/routes/taskRoutes.js:30 | an update can store priority "Urgent", which creation rejects |
| Boards.NewBoard | backend/routes/boardRoutes.js:59-66 | a new board has exactly the columns "To Do", "In Progress", "Done", in that order, with the given ids |
| Boards.NewBoardDoneColumn | backend/routes/boardRoutes.js:19-21 | a new board's done column is its third column |
| Boards.RenamedTitle | backend/routes/boardRoutes.js:76 | a non-empty given title replaces the title; an empty or absent one keeps it |
| Boards.RenamedTitleIdempotent | backend/routes/boardRoutes.js:76 | renaming twice with the same title is renaming once |
| Boards.FindBoard | backend/routes/boardRoutes.js:73-74 | absent exactly when no board has the id; otherwise the first position holding it |
| Boards.FindColumn | backend/routes/boardRoutes.js:101 | absent exactly when no column has the id; otherwise the first position holding it |
| Boards.RenameColumnAt | backend/routes/boardRoutes.js:101-103 | only the name of the column at that position changes; its id and every other column are kept |
| Boards.WithoutColumnId | backend/routes/boardRoutes.js:115 | exactly the columns with another id |
| Boards.WithoutColumnIdAppend | backend/routes/boardRoutes.js:115 | column removal keeps the order of the remaining columns |
| Boards.WithoutAbsentColumnId | backend/routes/boardRoutes.js:115 | removing an absent column id changes nothing |
| Boards.WithoutColumnIdUnique | backend/routes/boardRoutes.js:115 | column removal keeps column ids distinct |
| Boards.ToLower | backend/routes/boardRoutes.js:20 | same length, each character folded to lower case |
| Boards.IsDoneName | backend/routes/boardRoutes.js:20 | only a four-character name can be the done name |
| Boards.IsDoneNameCases | backend/routes/boardRoutes.js:20 | a name is the done name exactly when it spells "done" in any mix of cases |
| Boards.DoneColumnIndex | backend/routes/boardRoutes.js:19-23 | absent exactly when no column is named "done"; otherwise the first such column |
| Boards.RoundedPercent | backend/routes/boardRoutes.js:31 | 0 for no tasks, at most 100, 100 when all are done, and the nearest whole percent with halves rounded up |
| Boards.DoneCount | backend/routes/boardRoutes.js:26-29 | never more than the board's tasks; 0 when there is no done column |
| Boards.BoardProgress | backend/routes/boardRoutes.js:26-31 | within [0, 100]; 0 for a board without tasks or without a done column |
| Boards.AllDoneIsFull | backend/routes/boardRoutes.js:27-31 | when every task of the board sits in its done column, progress is 100 |
| Server.Store.FreshId | backend/models/Board.js:12-15 | hands out an id no stored board, column or task uses, keeping the store's invariant |
| Server.Store.ListBoards | backend/routes/boardRoutes.js:9-39 | every board in store order, unchanged, each with its progress (BoardProgress of the board and the stored tasks), which is at most 100 |
| Server.Store.GetBoard | backend/routes/boardRoutes.js:47-55 | the board with the id, or not found |
| Server.Store.CreateBoard | backend/routes/boardRoutes.js:58-69 | appends a seeded board with a fresh id and fresh column ids; tasks unchanged |
| Server.Store.RenameBoard | backend/routes/boardRoutes.js:72-80 | not found for an unknown id with nothing changed; otherwise only that board's title changes, as RenamedTitle says |
| Server.Store.DeleteBoard | backend/routes/boardRoutes.js:83-86 | removes the board if present, keeps the others in order, and leaves every task in place |
| Server.Store.AddColumn | backend/routes/boardRoutes.js:89-96 | appends a column with a fresh id to that board only, and publishes `column-updated` with the name and no id; an unknown board fails with nothing changed |
| Server.Store.RenameColumn | backend/routes/boardRoutes.js:99-110 | renames only the column with the id and publishes it; an absent column id is not found with nothing changed or published |
| Server.Store.DeleteColumn | backend/routes/boardRoutes.js:113-122 | drops the column from that board, deletes every task with that columnId, publishes `column-deleted`; afterwards no task has that columnId |
| Server.Store.ListTasks | backend/routes/taskRoutes.js:8-11 | exactly the tasks of the board, in store order |
| Server.Store.CreateTask | backend/routes/taskRoutes.js:14-25 | a valid body appends the task, publishes `new-task` to its board's room and the task is then listed for its board; an invalid body changes and publishes nothing |
| Server.Store.UpdateTask | backend/routes/taskRoutes.js:28-43 | not found for an unknown id with nothing changed; otherwise the task becomes Merge of itself and the body, nothing else changes, and the whole new record is published to the room of its (possibly new) board |
| Server.Store.DeleteTask | backend/routes/taskRoutes.js:46-55 | removes exactly that task and publishes its id under the board's ObjectId as room key, which reaches no page; not found for an unknown id with nothing changed |
| Server.NewBoardProgress | backend/routes/boardRoutes.js:19-31 | a new board with one task in "To Do" has progress 0, and 100 once the `{ columnId }` update moves the task to "Done" |
| Server.OneTaskProgress | backend/routes/boardRoutes.js:26-31 | a board with one task is 100% done when it sits in the done column and 0% otherwise |
| Reconciler.Renders | frontend/src/pages/KanbanBoardPage.jsx:693-694 | the page draws no columns exactly when the cell is empty or holds a column payload, which show "Loading board...", or when an updater crashed, which leaves the page blank |
| Reconciler.AppendTask | frontend/src/pages/KanbanBoardPage.jsx:474-480 | a payload with an id adds exactly one task at the end; without one the list is unchanged |
| Reconciler.ReplaceById | frontend/src/pages/KanbanBoardPage.jsx:482-490 | same length; every task with the id becomes the payload, every other task is kept in place |
| Reconciler.MoveTask | frontend/src/pages/KanbanBoardPage.jsx:632-635 | same length; the task with the id gets the new column, every other task is kept |
| Reconciler.DropColumn | frontend/src/pages/KanbanBoardPage.jsx:501-505 | a shown board loses the column with that id; a cell holding no board makes the handler fail |
| Reconciler.OnEvent | frontend/src/pages/KanbanBoardPage.jsx:474-507 | each event's effect on the task list and the board cell: `new-task` appends, `task-updated` replaces every task with the payload's id (ReplaceById), the two deletions keep exactly the other tasks; `column-updated` replaces the board with the column payload, so the page stops rendering it |
| Reconciler.NewTaskDuplicates | frontend/src/pages/KanbanBoardPage.jsx:474-477 | the same `new-task` delivered twice lists the task twice |
| Reconciler.ReplaceAbsent | frontend/src/pages/KanbanBoardPage.jsx:484-486 | `task-updated` never inserts: an unknown id changes nothing |
| Reconciler.TaskUpdatedIdempotent | frontend/src/pages/KanbanBoardPage.jsx:482-490 | applying the same `task-updated` twice equals applying it once |
| Reconciler.TaskDeletedAbsent | frontend/src/pages/KanbanBoardPage.jsx:492-495 | `task-deleted` for an unknown id changes nothing |
| Reconciler.TaskDeletedIdempotent | frontend/src/pages/KanbanBoardPage.jsx:494 | applying the same `task-deleted` twice equals applying it once |
| Reconciler.TaskDeletedKeepsOrder | frontend/src/pages/KanbanBoardPage.jsx:494 | removal keeps the remaining tasks in order |
| Reconciler.ColumnDeletedClears | frontend/src/pages/KanbanBoardPage.jsx:501-507 | on a shown board, the column is gone, every other column stays, and no task has its id |
| Reconciler.MoveTaskOnlyColumn | frontend/src/pages/KanbanBoardPage.jsx:633-635 | the optimistic move changes only the columnId of the task with the id |
| Reconciler.DragDecision | frontend/src/pages/KanbanBoardPage.jsx:656-678 | no target does nothing; the trash bin deletes; the dragged task's own column is refused; an existing column moves the task there; any other target does nothing (each as an if-and-only-if) |
| Reconciler.BoardPage.constructor | frontend/src/pages/KanbanBoardPage.jsx:439-448 | the page starts with no board, no tasks and no dragged task |
| Reconciler.BoardPage.Receive | frontend/src/pages/KanbanBoardPage.jsx:474-507 | a socket event moves the page's state as OnEvent says and leaves the dragged task alone; a crashed page has no handlers and stays as it is |
| Reconciler.BoardPage.Resync | frontend/src/pages/KanbanBoardPage.jsx:531-535 | the task list becomes the fetched list, except on a crashed page; nothing else changes |
| Reconciler.BoardPage.ShowBoard | frontend/src/pages/KanbanBoardPage.jsx:523 | the cell holds the returned board, which renders again; a crashed page stays blank |
| Reconciler.BoardPage.DragStart | frontend/src/pages/KanbanBoardPage.jsx:649-654 | records the task with the id when the page renders its board and holds that task, and otherwise changes nothing |
| Reconciler.BoardPage.DragEnd | frontend/src/pages/KanbanBoardPage.jsx:656-678 | clears the dragged task, takes DragDecision on the task recorded at drag start, moves the task at once on a move, and removes it on a delete only when the server accepts |
| Content.IndexOf | frontend/src/pages/KanbanBoardPage.jsx:57 | -1 exactly when absent; otherwise the first position of the value |
| Content.InitialPriority | frontend/src/pages/KanbanBoardPage.jsx:53 | the stored priority when non-empty, else Low |
| Content.CyclePriority | frontend/src/pages/KanbanBoardPage.jsx:55-58 | Low to Medium to High to Low; any other value to Low; the result is always in the enum |
| Content.CycleReturns | frontend/src/pages/KanbanBoardPage.jsx:40 | three clicks bring a valid priority back to itself |
| Content.CycleMoves | frontend/src/pages/KanbanBoardPage.jsx:56-57 | a click always changes the priority |
| Content.PriorityColor | frontend/src/pages/KanbanBoardPage.jsx:71-79 | red for High, yellow for Medium; a name the literal inherits from `Object.prototype` (such as `constructor`) yields that inherited member and no colour class, exactly for those names; green for everything else |
| Content.PriorityColorDistinct | frontend/src/pages/KanbanBoardPage.jsx:71-79 | the three valid priorities get three different colours |
| Content.UnknownDrawnAsLow | frontend/src/pages/KanbanBoardPage.jsx:77 | a value outside the enum that the literal does not inherit is drawn like Low |
| Editor.InheritedPriorityUncoloured | frontend/src/pages/KanbanBoardPage.jsx:72-77 | an update can store the priority `constructor`, which is outside the enum, and that task's dot then gets no colour class |
| Content.HasCodeChar | frontend/src/pages/KanbanBoardPage.jsx:203 | true exactly when some character is one of `{ } ; = < >` |
| Content.SplitLines | frontend/src/pages/KanbanBoardPage.jsx:203 | one more piece than line feeds, none containing a line feed |
| Content.JoinSplit | frontend/src/pages/KanbanBoardPage.jsx:203 | joining the pieces with line feeds gives the text back |
| Content.SplitJoin | frontend/src/pages/KanbanBoardPage.jsx:203 | splitting a join of line-feed-free pieces gives the pieces back |
| Content.IsCodeBlock | frontend/src/pages/KanbanBoardPage.jsx:201-204 | true exactly when the text has a code character or at least three line feeds |
| Content.CloseAt | frontend/src/pages/KanbanBoardPage.jsx:268 | the first `)` with no line terminator or `)` before it, or none when every `)` lies past a line terminator |
| Content.Captured | frontend/src/pages/KanbanBoardPage.jsx:268 | the text between a `(` and the `)` that closes it holds no `)` and no line terminator |
| Content.FirstMatch | frontend/src/pages/KanbanBoardPage.jsx:268 | the leftmost position, from a start, where a `(` closes on its own line, or none when no position does |
| Content.MatchParens | frontend/src/pages/KanbanBoardPage.jsx:268 | no match exactly when no `(` closes on its own line; otherwise the text captured at the leftmost `(` that does, which holds no `)` and no line terminator |
| Content.ImageMarkup | frontend/src/pages/KanbanBoardPage.jsx:318 | the stored text starts with the image prefix |
| Content.ImageRoundTrip | frontend/src/pages/KanbanBoardPage.jsx:268 | a url without `)` or line terminators is read back from its markup |
| Content.Classify | frontend/src/pages/KanbanBoardPage.jsx:257-277 | code view of the content exactly for code blocks; image view exactly for other texts with the image prefix, its source being the regex match of the content (MatchParens); otherwise the text, or "No description." when empty |
| Content.UploadedImageShown | frontend/src/pages/KanbanBoardPage.jsx:314-320 | an uploaded image whose url has no code character, `)` or line terminator is shown as that image |
| Content.QueryStringUrlIsCode | frontend/src/pages/KanbanBoardPage.jsx:257 | an image url holding `=` is shown as a code block instead |
| Editor.RemoveIndex | frontend/src/pages/KanbanBoardPage.jsx:166-168 | the list without the entry at that position, or unchanged when the position is past the end |
| Editor.RemoveIndexShifts | frontend/src/pages/KanbanBoardPage.jsx:166-168 | one entry fewer; earlier entries stay, later ones shift down by one |
| Editor.ContentsRemoveIndex | frontend/src/pages/KanbanBoardPage.jsx:166-168 | removing an entry removes exactly its content |
| Editor.SaveBody | frontend/src/pages/KanbanBoardPage.jsx:174-182 | the body carries the title and every content in order, and no `checked` |
| Editor.SaveClearsChecked | frontend/src/pages/KanbanBoardPage.jsx:177-181 | after a save the task holds the edited contents in order and every `checked` flag is false |
| Editor.DescriptionEditor.Open | frontend/src/pages/KanbanBoardPage.jsx:135-146 | the drafts are the task's own description objects, or one new empty entry when it has none |
| Editor.DescriptionEditor.StartEditing | frontend/src/pages/KanbanBoardPage.jsx:356 | enters edit mode and changes nothing else |
| Editor.DescriptionEditor.UpdateInPlace | frontend/src/pages/KanbanBoardPage.jsx:149-155 | as written: the entry's content changes, and so does every stored description that is the same object |
| Editor.DescriptionEditor.UpdateCopy | frontend/src/pages/KanbanBoardPage.jsx:149-155 | corrected: only the draft at that position gets the new content; the task's stored contents are unchanged |
| Editor.DescriptionEditor.Add | frontend/src/pages/KanbanBoardPage.jsx:158-163 | one empty entry at the end; the stored contents are unchanged |
| Editor.DescriptionEditor.Remove | frontend/src/pages/KanbanBoardPage.jsx:166-168 | the drafts lose exactly the entry at that position |
| Editor.DescriptionEditor.AddImage | frontend/src/pages/KanbanBoardPage.jsx:314-323 | an image entry is appended only when the upload answered with a url and a file name |
| Editor.DescriptionEditor.Cancel | frontend/src/pages/KanbanBoardPage.jsx:340-348 | leaves edit mode, restores the title, and makes the drafts the task's description objects again (one empty entry when it has none) |
| Editor.DescriptionEditor.Body | frontend/src/pages/KanbanBoardPage.jsx:170-183 | the Save body carries the edited title and one entry per draft, in order, with that draft's content and no `checked` flag; board, column and priority are not sent |
| Editor.CancelAfterInPlaceEdit | frontend/src/pages/KanbanBoardPage.jsx:149-155 | edit "draft" to "edited" as written, then Cancel: the drafts still read "edited" |
| Editor.CancelAfterCopyEdit | frontend/src/pages/KanbanBoardPage.jsx:340-348 | the same steps with the corrected update: Cancel brings back "draft" |
| BoardList.AppendBoard | frontend/src/pages/BoardsPage.jsx:45 | the board is added at the end and the rest is unchanged |
| BoardList.WithoutListed | frontend/src/pages/BoardsPage.jsx:37 | exactly the boards with another id |
| BoardList.OnListEvent | frontend/src/pages/BoardsPage.jsx:44-50 | `board-created` adds the board at the end and keeps the rest as it was; `board-deleted` keeps exactly the boards with another id |
| BoardList.AfterCreate | frontend/src/pages/BoardsPage.jsx:28-29 | the returned board is added at the end, without progress |
| BoardList.WithoutListedAppend | frontend/src/pages/BoardsPage.jsx:37 | removal keeps the remaining boards in order |
| BoardList.WithoutListedAbsent | frontend/src/pages/BoardsPage.jsx:49 | removing an absent id changes nothing |
| BoardList.WithoutListedIdempotent | frontend/src/pages/BoardsPage.jsx:49 | removing the same id twice is removing it once |
| BoardList.WithoutListedAt | frontend/src/pages/BoardsPage.jsx:37 | with distinct ids, removal drops exactly that board; boards before and after it stay unchanged and in order |
| BoardList.CreateThenDelete | frontend/src/pages/BoardsPage.jsx:44-50 | a board created then deleted leaves the list as removing its id would |
| BoardList.CreatedTwiceListedTwice | frontend/src/pages/BoardsPage.jsx:44-46 | the same `board-created` delivered twice lists the board twice |
| Sync.CreateMirrored | backend/routes/taskRoutes.js:18-19 | the `new-task` event keeps the page of the task's board in step with the store |
| Sync.CreateElsewhere | backend/routes/taskRoutes.js:19 | the pages of other boards need no event to stay in step |
| Sync.RedeliveryBreaksSync | frontend/src/pages/KanbanBoardPage.jsx:474-477 | a page in step with the store that gets the same `new-task` twice lists the task twice and is out of step |
| Sync.UpdateMirrored | backend/routes/taskRoutes.js:30-36 | for a task that stays on its board, the store's new list for the board is the page's list with the record replaced |
| Sync.UpdateKeepsSync | backend/routes/taskRoutes.js:36 | the `task-updated` event keeps the page in step when the task stays on the board |
| Sync.MovedAwayLingers | backend/routes/taskRoutes.js:36 | an update that changes boardId is published to the new board only, and the old board's page keeps a task the store no longer lists there |
| Sync.MoveMatchesServer | frontend/src/pages/KanbanBoardPage.jsx:632-641 | the optimistic move gives the page exactly what the store holds after the `{ columnId }` update |
| Sync.DeleteKeepsSync | backend/routes/taskRoutes.js:49-50 | a `task-deleted` event, when it is delivered, keeps the page in step |
| Sync.UndeliveredDeleteLingers | backend/routes/taskRoutes.js:50 | since `task-deleted` reaches no page, the board's other pages (all but the one that deleted it) keep listing a task the store no longer holds |
| Sync.AddThenDeleteCrashes | frontend/src/pages/KanbanBoardPage.jsx:497-505 | after the `column-updated` that adding a column publishes, the page holds the column payload, and any later `column-deleted` makes its updater throw, which crashes the page |
| Sync.ColumnDeleteKeepsSync | backend/routes/boardRoutes.js:118-120 | the `column-deleted` event removes from the page exactly what the cascade removes from the board's tasks |
| Sync.ColumnUpdateBlanks | backend/routes/boardRoutes.js:94 | after any `column-updated` the page stops rendering its board, and its tasks are unchanged |

## Left out

- Timestamps (`createdAt` of boards, tasks and descriptions) are not modelled: they come from the clock.
- Ids are natural numbers from a counter in the store; `ObjectId` strings, their comparison through `toString()` and the cast errors a malformed id raises are not modelled, apart from the room key of task deletion (below).
- The network is not modelled: `fetch` failures, HTTP status codes other than not found, toasts, alerts, the trash sound and navigation. Store errors (HTTP 500) are left out apart from the cases below.
- The column routes dereference the board without checking it; for an unknown board id the handler throws. The model returns `Unhandled` and changes nothing.
- Joining a room and the relay handlers in `backend/server.js` are not modelled. A published event reaches the pages of board `b` exactly when its room is `BoardRoom(b)` (`Events.Reaches`). The one route that passes the board's ObjectId rather than a string, task deletion, is modelled as reaching no page; this follows the room lookup of socket.io 3 and later, which compares keys by identity.
- A page joins a board's room on mount and never leaves it. A tab that has shown board B1 and moves to board B2 keeps receiving B1's events, and its handlers apply them to B2's state. A `column-updated` from B1 then blanks B2's page, and a `new-task` from B1 adds B1's task to B2's list. The model treats each page as in the rooms of its own board only.
- The events the client sends itself (`socket.emit` in `addTask`, `addColumn`, `renameColumn`, `deleteColumn`, `deleteTask` and `moveTask`) are not modelled as messages. The relay handlers destructure `{ boardId, ... }` from the payload and forward to the other sessions of that room. Only `addTask` sends an object with a `boardId` (the created task). Its relay reaches the board's other pages, but with `task` undefined, and their handler only logs a warning; `Reconciler.OnEvent` on `NewTask(None)` changes nothing, which is that outcome. The other payloads have no `boardId`, so their relays go to no room.
- File upload, the random file names and the file removal helper are not modelled. Deleting a task or a column removes no files, and the model does the same.
- Concurrency is not modelled: every request and every handler runs to completion, one at a time. React's batched, asynchronous state updates are modelled as immediate updates.
- Server.Store.ListBoards: column names are always strings in the model. The add and rename column routes store `req.body.name` as given, so a body without `name` stores a nameless column. The list route then calls `toLowerCase` on an undefined name and answers 500 for every client. This happens only when the nameless column comes before the board's first done column. The model does not have this failure.
- Server.Store.AddColumn, Server.Store.RenameColumn: take the new name as a string; a body without `name`, which stores a nameless column, is not modelled (see the line above).
- Boards.RoundedPercent: computes `Math.round((done / total) * 100)` on exact rationals as `(200 * done + total) / (2 * total)`. Floating point can put an exact half just below .5 (29 of 200 gives 14.499999999999998, which rounds to 14), where the model gives 15.
- Boards.ToLower: folds only the ASCII letters A-Z; JavaScript's `toLowerCase` also folds other Unicode letters.
- TaskTable.Merge: update bodies with `null` values, `_id` or `createdAt` are not modelled; an absent field is `None`. Mongoose's casting of wrongly typed values is not modelled.
- Server.Store.CreateTask: does not check that the board or the column exists, as the route does not.
- The client's `addColumn`, `renameColumn`, `deleteColumn`, board title rename and `handleTaskUpdate` handlers are covered only through what they set: `BoardPage.ShowBoard` for the returned board, `WithoutColumn` for the local column filter and `ReplaceById` for the saved task. They are modelled for a successful response only. When `renameColumn` gets a 404 it still stores the `{ error }` body as the board (lines 593-594 of `KanbanBoardPage.jsx`). The next line then throws on its missing `columns`, and the page shows "Loading board..." until it is reloaded. The board cell has no value for such a body.
- The board list page's `board-created` and `board-deleted` handlers are modelled by `BoardList.OnListEvent`. No route and no relay in the server publishes either event, so in the application as written they never run; the list changes only through the page's own create and delete.
- The task card keeps its own priority state, and `cyclePriority` sends a PUT with the new priority. That request is an ordinary `Server.Store.UpdateTask` and is not modelled as a separate operation.
- The `checked` flag of a description is never shown or edited by the client; it is kept only so that `Editor.SaveClearsChecked` can state what a save does to it.
- Several behaviours of the code are modelled as they are, though a reader might expect otherwise. `new-task` is appended without looking for its id (`Sync.RedeliveryBreaksSync`). `column-updated` stores its payload in place of the board (`Sync.ColumnUpdateBlanks`). Task routes do not check that the board or column exists. Updates are not validated against the schema (`TaskTable.MergeBypassesEnum`). Deleting a column or a task removes no uploaded file. The `column-updated` event sent after adding a column carries an object without an id.

## Findings

| source | as written | input that shows it | evidently intended | confidence | as-written member | corrected member |
|---|---|---|---|---|---|---|
| frontend/src/pages/KanbanBoardPage.jsx:149-155 | `updateDescription` copies the array but writes `content` into the entry object, which is the same object as in the task's own `descriptions` | open a task whose one description is "draft", press Edit, change the text to "edited", press Cancel | Cancel discards the edit and shows "draft" again | not executed; the object sharing follows from line 140 and line 343 passing `task.descriptions` itself | Editor.CancelAfterInPlaceEdit | Editor.DescriptionEditor.UpdateCopy |
