/** The description modal of frontend/src/pages/KanbanBoardPage.jsx: the
    list of descriptions being edited, whose entries are objects shared with
    the task the page holds. */
module Editor {
  import opened Common
  import opened TaskSchema
  import opened TaskTable
  import opened Content

  /** One description object as the page holds it. */
  class DescriptionCell {
    var content: string
    var filename: Option<string>

    constructor (content: string, filename: Option<string>)
      ensures this.content == content && this.filename == filename
    {
      this.content, this.filename := content, filename;
    }
  }

  /** The contents of a list of description objects, in order. */
  function Contents(cells: seq<DescriptionCell>): (r: seq<string>)
    reads cells
    ensures |r| == |cells|
    ensures forall i :: 0 <= i < |cells| ==> r[i] == cells[i].content
  {
    if cells == [] then [] else [cells[0].content] + Contents(cells[1..])
  }

  /** `s.filter((_, i) => i !== index)` */
  function RemoveIndex<T>(s: seq<T>, index: nat): (r: seq<T>)
    ensures index < |s| ==> r == s[..index] + s[index + 1..]
    ensures index >= |s| ==> r == s
  {
    if s == [] then []
    else if index == 0 then s[1..]
    else
      var rest := RemoveIndex(s[1..], index - 1);
      assert index < |s| ==> [s[0]] + (s[1..][..index - 1] + s[1..][index..]) == s[..index] + s[index + 1..];
      [s[0]] + rest
  }

  /** Removing a position keeps every other entry, in order, and shifts the
      later ones down by one. */
  lemma RemoveIndexShifts<T>(s: seq<T>, index: nat)
    requires index < |s|
    ensures |RemoveIndex(s, index)| == |s| - 1
    ensures forall i :: 0 <= i < |s| - 1 ==>
      RemoveIndex(s, index)[i] == if i < index then s[i] else s[i + 1]
  {
  }

  /** Removing an entry removes its content. */
  lemma ContentsRemoveIndex(cells: seq<DescriptionCell>, index: nat)
    ensures Contents(RemoveIndex(cells, index)) == RemoveIndex(Contents(cells), index)
  {
  }

  /** The update body `handleSave` sends: the title and, for every entry, its
      content. The file name is dropped by the schema and `checked` is not sent. */
  function SaveBody(title: string, contents: seq<string>): (p: TaskPatch)
    ensures p.boardId.None? && p.columnId.None? && p.priority.None?
    ensures p.title == Some(title)
    ensures p.descriptions.Some? && |p.descriptions.value| == |contents|
    ensures forall i :: 0 <= i < |contents| ==>
      p.descriptions.value[i] == DescriptionInput(Some(contents[i]), None)
  {
    TaskPatch(None, None, Some(title),
      Some(seq(|contents|, i requires 0 <= i < |contents| => DescriptionInput(Some(contents[i]), None))),
      None)
  }

  /** Saving stores every edited content in order and clears every `checked`
      flag, since the body carries none and the schema's default applies. */
  lemma SaveClearsChecked(t: Task, title: string, contents: seq<string>)
    ensures var saved := Merge(t, SaveBody(title, contents));
      saved.title == title && |saved.descriptions| == |contents| &&
      forall i :: 0 <= i < |contents| ==> saved.descriptions[i] == Description(contents[i], false)
  {
  }

  /** An update may store "constructor" as a priority (update validators do
      not run), and that task's priority dot on the card then gets no colour class at all. */
  lemma InheritedPriorityUncoloured(t: Task)
    ensures var stored := Merge(t, EMPTY_PATCH.(priority := Some("constructor")));
      !ValidPriority(stored.priority) && PriorityColor(stored.priority).InheritedMember?
  {
  }

  /** The modal's state for one task. `stored` is `task.descriptions`, the
      objects the page's task holds; `drafts` is `editedDescriptions`. */
  class DescriptionEditor {
    var taskTitle: string
    var stored: seq<DescriptionCell>
    var title: string
    var drafts: seq<DescriptionCell>
    var editing: bool

    /** The effect that runs when a task is opened: the drafts are the
        task's own description objects, or one fresh empty entry when it has
        none. */
    constructor Open(taskTitle: string, stored: seq<DescriptionCell>)
      ensures this.taskTitle == taskTitle && this.stored == stored
      ensures title == taskTitle && !editing
      ensures |stored| > 0 ==> drafts == stored
      ensures |stored| == 0 ==> |drafts| == 1 && fresh(drafts[0]) && drafts[0].content == ""
    {
      var cell := new DescriptionCell("", None);
      this.taskTitle, this.stored := taskTitle, stored;
      title, editing := taskTitle, false;
      drafts := if |stored| > 0 then stored else [cell];
    }

    method StartEditing()
      modifies this
      ensures editing
      ensures taskTitle == old(taskTitle) && stored == old(stored)
      ensures title == old(title) && drafts == old(drafts)
    {
      editing := true;
    }

    /** `updateDescription` as written: the array is copied but the entry
        object is written in place, so every list holding that object sees
        the new content. */
    method UpdateInPlace(index: nat, newContent: string)
      requires index < |drafts|
      modifies drafts[index]
      ensures drafts[index].content == newContent
      ensures forall j :: 0 <= j < |stored| ==>
        stored[j].content == if stored[j] == drafts[index] then newContent else old(stored[j].content)
    {
      drafts[index].content := newContent;
    }

    /** `updateDescription` with the entry copied before it is changed:
        only the drafts see the new content. */
    method UpdateCopy(index: nat, newContent: string)
      requires index < |drafts|
      modifies this
      ensures Contents(drafts) == old(Contents(drafts))[index := newContent]
      ensures Contents(stored) == old(Contents(stored))
      ensures taskTitle == old(taskTitle) && stored == old(stored) && title == old(title)
      ensures editing == old(editing)
    {
      var cell := new DescriptionCell(newContent, drafts[index].filename);
      drafts := drafts[index := cell];
    }

    /** `addDescription`: one empty entry at the end. */
    method Add()
      modifies this
      ensures Contents(drafts) == old(Contents(drafts)) + [""]
      ensures Contents(stored) == old(Contents(stored))
      ensures taskTitle == old(taskTitle) && stored == old(stored) && title == old(title)
      ensures editing == old(editing)
    {
      var cell := new DescriptionCell("", None);
      drafts := drafts + [cell];
    }

    /** `removeDescription(index)` */
    method Remove(index: nat)
      modifies this
      ensures drafts == RemoveIndex(old(drafts), index)
      ensures Contents(drafts) == RemoveIndex(old(Contents(drafts)), index)
      ensures taskTitle == old(taskTitle) && stored == old(stored) && title == old(title)
      ensures editing == old(editing)
    {
      ContentsRemoveIndex(drafts, index);
      drafts := RemoveIndex(drafts, index);
    }

    /** The upload handler: an image entry is appended only when the server
        answered with both a url and a file name. */
    method AddImage(url: Option<string>, filename: Option<string>)
      modifies this
      ensures Truthy(url) && Truthy(filename) ==>
        Contents(drafts) == old(Contents(drafts)) + [ImageMarkup(url.value)] &&
        drafts[|drafts| - 1].filename == filename
      ensures !(Truthy(url) && Truthy(filename)) ==> drafts == old(drafts)
      ensures Contents(stored) == old(Contents(stored))
      ensures taskTitle == old(taskTitle) && stored == old(stored) && title == old(title)
      ensures editing == old(editing)
    {
      if Truthy(url) && Truthy(filename) {
        var cell := new DescriptionCell(ImageMarkup(url.value), filename);
        drafts := drafts + [cell];
      }
    }

    /** The Cancel button: the title and the drafts go back to the task's. */
    method Cancel()
      modifies this
      ensures !editing && title == taskTitle
      ensures taskTitle == old(taskTitle) && stored == old(stored)
      ensures |stored| > 0 ==> drafts == stored && Contents(drafts) == Contents(stored)
      ensures |stored| == 0 ==> Contents(drafts) == [""]
    {
      var cell := new DescriptionCell("", None);
      editing, title := false, taskTitle;
      drafts := if |stored| > 0 then stored else [cell];
    }

    /** The body the Save button sends: the edited title and one entry per
        draft, in order, holding that draft's current content and no
        `checked` flag; nothing else is sent. */
    function Body(): (p: TaskPatch)
      reads this, drafts
      ensures p.boardId.None? && p.columnId.None? && p.priority.None?
      ensures p.title == Some(title)
      ensures p.descriptions.Some? && |p.descriptions.value| == |drafts|
      ensures forall i :: 0 <= i < |drafts| ==>
        p.descriptions.value[i] == DescriptionInput(Some(drafts[i].content), None)
    {
      SaveBody(title, Contents(drafts))
    }
  }

  /** Open a task with one description "draft", edit it to "edited" with
      `updateDescription` as written, then press Cancel: the drafts still
      read "edited", because the edit went into the task's own object. */
  method CancelAfterInPlaceEdit() returns (before: seq<string>, after: seq<string>)
    ensures before == ["draft"] && after == ["edited"]
  {
    var cell := new DescriptionCell("draft", None);
    var editor := new DescriptionEditor.Open("task", [cell]);
    before := Contents(editor.drafts);
    editor.StartEditing();
    editor.UpdateInPlace(0, "edited");
    editor.Cancel();
    after := Contents(editor.drafts);
  }

  /** The same steps with the entry copied before it is changed: Cancel
      brings back "draft". */
  method CancelAfterCopyEdit() returns (before: seq<string>, after: seq<string>)
    ensures before == ["draft"] && after == ["draft"]
  {
    var cell := new DescriptionCell("draft", None);
    var editor := new DescriptionEditor.Open("task", [cell]);
    before := Contents(editor.drafts);
    editor.StartEditing();
    editor.UpdateCopy(0, "edited");
    editor.Cancel();
    after := Contents(editor.drafts);
  }
}
