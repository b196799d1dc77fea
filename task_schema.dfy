/** The task document as the schema in backend/models/Task.js declares it:
    field shapes, required fields, the priority enum and the defaults. */
module TaskSchema {
  import opened Common

  /** One entry of a task's `descriptions` list (`createdAt` is left out). */
  datatype Description = Description(content: string, checked: bool)

  /** A description as a request body carries it: either field may be absent. */
  datatype DescriptionInput = DescriptionInput(content: Option<string>, checked: Option<bool>)

  /** A stored task. `priority` is the stored string: the schema's enum is
      checked when a task is created, not when it is updated. */
  datatype Task = Task(
    id: Id,
    boardId: Id,
    columnId: Id,
    title: string,
    descriptions: seq<Description>,
    priority: string)

  /** The body of a create request, as the task route reads it. The field is
      `description` (singular), which the schema does not declare. */
  datatype TaskInput = TaskInput(
    boardId: Option<Id>,
    columnId: Option<Id>,
    title: Option<string>,
    description: Option<string>,
    priority: Option<string>)

  const PRIORITIES: seq<string> := ["Low", "Medium", "High"]
  const DEFAULT_PRIORITY: string := "Low"

  /** The priority enum: "Low", "Medium" or "High", spelled exactly. */
  predicate ValidPriority(p: string)
    ensures ValidPriority(p) <==> p == "Low" || p == "Medium" || p == "High"
  {
    p in PRIORITIES
  }

  /** What the schema's validators accept: a non-empty title (a required
      string rejects "") and a priority from the enum. */
  predicate ValidTask(t: Task)
    ensures ValidTask(t) ==> |t.title| > 0 && t.priority in {"Low", "Medium", "High"}
  {
    t.title != "" && ValidPriority(t.priority)
  }

  /** Casting one description subdocument fills the schema defaults. */
  function CastDescription(d: DescriptionInput): (r: Description)
    ensures r.content == (if d.content.Some? then d.content.value else "")
    ensures r.checked <==> d.checked == Some(true)
  {
    Description(
      match d.content case Some(c) => c case None => "",
      match d.checked case Some(b) => b case None => false)
  }

  /** Casting a `descriptions` array keeps its order and length. */
  function CastDescriptions(ds: seq<DescriptionInput>): (r: seq<Description>)
    ensures |r| == |ds|
    ensures forall i :: 0 <= i < |ds| ==> r[i] == CastDescription(ds[i])
  {
    if ds == [] then [] else [CastDescription(ds[0])] + CastDescriptions(ds[1..])
  }

  /** `new Task({ boardId, columnId, title, description, priority })` followed
      by validation: the id is supplied by the store. */
  function TaskFromInput(id: Id, input: TaskInput): (r: Result<Task>)
    ensures r.Ok? <==>
      input.boardId.Some? && input.columnId.Some? && Truthy(input.title) &&
      (input.priority.None? || ValidPriority(input.priority.value))
    ensures r.Err? ==> r.failure == Invalid
    ensures r.Ok? ==>
      ValidTask(r.value) && r.value.id == id &&
      r.value.boardId == input.boardId.value &&
      r.value.columnId == input.columnId.value &&
      r.value.title == input.title.value &&
      r.value.descriptions == []
    ensures r.Ok? ==>
      r.value.priority == (if input.priority.Some? then input.priority.value else DEFAULT_PRIORITY)
  {
    if input.boardId.None? || input.columnId.None? || !Truthy(input.title) then Err(Invalid)
    else
      var priority := match input.priority case Some(p) => p case None => DEFAULT_PRIORITY;
      if !ValidPriority(priority) then Err(Invalid)
      else Ok(Task(id, input.boardId.value, input.columnId.value, input.title.value, [], priority))
  }

  /** The request's `description` text never reaches the stored task. */
  lemma DescriptionFieldIgnored(id: Id, input: TaskInput, text: string)
    requires TaskFromInput(id, input).Ok?
    ensures TaskFromInput(id, input.(description := Some(text))) ==
            TaskFromInput(id, input.(description := None))
    ensures TaskFromInput(id, input).value.descriptions == []
  {
  }
}
