/** The realtime events that the routes publish to a board's room and that
    the board page listens for. A payload the page cannot use (a relayed
    event whose fields were lost) is `None`. */
module Events {
  import opened Common
  import opened TaskSchema

  /** What `column-updated` carries: the column object the route holds. */
  datatype ColumnPayload = ColumnPayload(id: Option<Id>, name: string)

  datatype Event =
    | NewTask(task: Option<Task>)
    | TaskUpdated(task: Option<Task>)
    | TaskDeleted(taskId: Option<Id>)
    | ColumnUpdated(column: ColumnPayload)
    | ColumnDeleted(columnId: Option<Id>)

  /** A room key as the server's adapter compares it. A page joins the room
      named by the board id's string (`join-board`); a route that passes the
      board's ObjectId itself names no room a page has joined, since the
      adapter looks rooms up by key identity and an object equals no string. */
  datatype Room = BoardRoom(board: Id) | ObjectIdKey(board: Id)

  /** Whether an event sent to `room` reaches the pages showing board `b`. */
  predicate Reaches(room: Room, b: Id)
  {
    room == BoardRoom(b)
  }

  /** `io.to(room).emit(...)`: the event goes to every session that joined `room`. */
  datatype Emit = Emit(room: Room, event: Event)
}
