/**
 * The TodoApp controller of assets/js/tasks.js. The remote "todos" collection is the
 * in-memory sequence `tasks`; the input fields, the rendered task list, the chat history
 * and the alerts raised are fields of the object that its handlers update.
 */
module TodoApp {
  import opened Maybe
  import opened JsString
  import opened Html
  import opened Store
  import opened Chat

  const EnterTaskAlert: string := "Please enter a task!"
  const AddFailedAlert: string := "Failed to add task. Please try again."

  /** What handleAddTask receives as `taskText`. */
  datatype AddArg =
    | NoText                 // no argument, so the default null (Enter in the task field)
    | ChatText(text: string) // the remainder of an "add task" chat command
    | ClickEvent             // the event object the button's click listener passes

  /** handleAddTask either stores a text (clearing the task field or not) or raises an alert. */
  datatype AddOutcome = Stored(text: string, clearField: bool) | Alerted(message: string)

  /** The element a click or key press on the task list lands on. */
  datatype Target = Item(index: nat) | Elsewhere

  /** `taskText || this.sanitizeInput(this.taskInput.value.trim())`, then the `if (text)` test. */
  function AddOutcomeOf(arg: AddArg, field: string): (o: AddOutcome)
    ensures o.Stored? ==> o.text != [] && (o.clearField <==> !(arg.ChatText? && arg.text != []))
    ensures o.Alerted? <==> arg.ClickEvent? || ((arg.NoText? || arg.text == []) && AllWhitespace(field))
    ensures o.Alerted? ==> o.message == if arg.ClickEvent? then AddFailedAlert else EnterTaskAlert
  {
    match arg
    // An event object is truthy, so it becomes `text`; addDoc refuses it as a field
    // value, and the catch block raises the failure alert.
    case ClickEvent => Alerted(AddFailedAlert)
    case ChatText(t) => if t != [] then Stored(t, false) else FieldOutcome(field)
    case NoText => FieldOutcome(field)
  }

  /** The field path of handleAddTask: `sanitizeInput(taskInput.value.trim())` and the `if (text)` test. */
  function FieldOutcome(field: string): (o: AddOutcome)
    ensures o.Stored? <==> !AllWhitespace(field)
    ensures o.Stored? ==> o.clearField
    ensures o.Alerted? ==> o.message == EnterTaskAlert
  {
    var t := Sanitize(Trim(field));
    if t != [] then Stored(t, true) else Alerted(EnterTaskAlert)
  }

  /** The two facts handleAddTask tests: whether `taskText` is truthy text, and whether the chosen text is. */
  lemma AddOutcomeText(arg: AddArg, field: string)
    requires !arg.ClickEvent?
    ensures var fromChat := arg.ChatText? && arg.text != [];
      var text := if fromChat then arg.text else Sanitize(Trim(field));
      AddOutcomeOf(arg, field) == if text != [] then Stored(text, !fromChat) else Alerted(EnterTaskAlert)
  {
  }

  /** Chat text is stored as given, not sanitised, and the task field is left alone. */
  lemma AddChatText(t: string, field: string)
    requires t != []
    ensures AddOutcomeOf(ChatText(t), field) == Stored(t, false)
  {
  }

  /**
   * From the task field, a task is stored exactly when the field holds more than
   * whitespace; what is stored is the trimmed field, escaped, which decodes back to it
   * and holds no markup; the field is then cleared.
   */
  lemma AddFromField(field: string)
    ensures AddOutcomeOf(NoText, field).Stored? <==> !AllWhitespace(field)
    ensures AddOutcomeOf(NoText, field).Alerted? ==> AddOutcomeOf(NoText, field).message == EnterTaskAlert
    ensures var o := AddOutcomeOf(NoText, field);
      o.Stored? ==> (o.clearField && Unescape(o.text) == Trim(field)
                     && forall i :: 0 <= i < |o.text| ==> o.text[i] != '<' && o.text[i] != '>')
  {
    UnescapeSanitize(Trim(field));
  }

  /**
   * The click finding: for any plain text typed in the task field ("Buy milk", say) the
   * button stores nothing and raises the failure alert, while Enter stores that text.
   */
  lemma ClickStoresNothing(field: string)
    requires field != [] && IsTrimmed(field)
    requires forall i :: 0 <= i < |field| ==> field[i] !in "&<>\U{A0}"
    ensures AddOutcomeOf(ClickEvent, field) == Alerted(AddFailedAlert)
    ensures AddOutcomeOf(NoText, field) == Stored(field, true)
  {
    TrimTrimmed(field);
    SanitizePlain(field);
  }

  /**
   * The escaping finding: text typed with a markup character ("a&b", say) is stored
   * escaped ("a&amp;b"); renderTasks shows the stored text through textContent, so the
   * row reads differently from what was typed, and "complete" with the typed text
   * never finds the record.
   */
  lemma AsWrittenEscapedText(field: string, i: nat, id: TaskId, owner: string)
    requires i < |Trim(field)| && Trim(field)[i] in "&<>\U{A0}"
    ensures var o := AddOutcomeOf(NoText, field);
      o.Stored? && Rows([Task(id, o.text, owner, false)])[0].text != Trim(field)
      && FindByName([Task(id, o.text, owner, false)], Trim(field)).None?
  {
    SanitizeLonger(Trim(field), i);
  }

  /**
   * handleAddTask's field path as evidently intended: the trimmed text is stored as
   * typed, since textContent already renders it as plain text.
   */
  function FieldOutcomeIntended(field: string): (o: AddOutcome)
    ensures o.Stored? <==> !AllWhitespace(field)
    ensures o.Alerted? ==> o.message == EnterTaskAlert
  {
    var t := Trim(field);
    if t != [] then Stored(t, true) else Alerted(EnterTaskAlert)
  }

  /** Stored as intended, a task's row shows exactly what was typed, and "complete" with that text finds it. */
  lemma IntendedTextShown(field: string, id: TaskId, owner: string)
    requires !AllWhitespace(field)
    ensures var o := FieldOutcomeIntended(field);
      o.Stored? && Rows([Task(id, o.text, owner, false)])[0].text == Trim(field)
      && FindByName([Task(id, o.text, owner, false)], Trim(field)) == Some(0)
  {
  }

  /** True when a chat command finds a task of `owner` to delete. */
  function CommandFound(c: Command, s: seq<Task>, owner: string): bool {
    c.Complete? && c.rest != [] && FindByName(OwnedBy(s, owner), c.rest).Some?
  }

  /** True when a chat command adds a task. */
  function CommandAdds(c: Command): bool {
    c.AddTask? && c.rest != []
  }

  /** The collection after a chat command, `newId` being the identifier the store hands out next. */
  function CommandStore(c: Command, s: seq<Task>, owner: string, newId: TaskId): (r: seq<Task>)
    ensures CommandAdds(c) ==> (|r| == |s| + 1 && r[..|s|] == s
                                && r[|s|].id == newId && r[|s|].text == c.rest
                                && r[|s|].email == owner && !r[|s|].completed)
    ensures !CommandAdds(c) ==> |r| <= |s|
    ensures !CommandAdds(c) && !CommandFound(c, s, owner) ==> r == s
  {
    if CommandAdds(c) then s + [Task(newId, c.rest, owner, false)]
    else if CommandFound(c, s, owner) then
      var docs := OwnedBy(s, owner);
      RemoveId(s, docs[FindByName(docs, c.rest).value].id)
    else s
  }

  /**
   * "add task R" adds one record, R in lower case, not completed, owned by the session,
   * at the end of the owner's listing, and changes no other owner's listing.
   */
  lemma ChatAddEffect(input: string, s: seq<Task>, owner: string, newId: TaskId)
    requires Classify(input).AddTask? && Classify(input).rest != []
    ensures var c := Classify(input); var t := Task(newId, c.rest, owner, false);
      CommandStore(c, s, owner, newId) == s + [t]
      && OwnedBy(CommandStore(c, s, owner, newId), owner) == OwnedBy(s, owner) + [t]
      && IsLowerCase(t.text) && IsTrimmed(t.text)
    ensures forall other :: other != owner ==>
      OwnedBy(CommandStore(Classify(input), s, owner, newId), other) == OwnedBy(s, other)
  {
    var c := Classify(input);
    var t := Task(newId, c.rest, owner, false);
    CommandRest(input);
    OwnedByAdded(s, t, owner);
    forall other | other != owner
      ensures OwnedBy(s + [t], other) == OwnedBy(s, other)
    {
      OwnedByAdded(s, t, other);
    }
  }

  /**
   * "complete R" deletes the first of the owner's tasks whose text matches R ignoring
   * case, and only that record; with no match, or with nothing after the keyword, the
   * collection stays as it is.
   */
  lemma ChatCompleteEffect(c: Command, s: seq<Task>, owner: string, newId: TaskId)
    requires c.Complete? && UniqueIds(s)
    ensures var docs, m := OwnedBy(s, owner), FindByName(OwnedBy(s, owner), c.rest);
      if c.rest != [] && m.Some? then
        (forall j :: 0 <= j < m.value ==> !NameMatches(docs[j], c.rest))
        && NameMatches(docs[m.value], c.rest)
        && OwnedBy(CommandStore(c, s, owner, newId), owner) == docs[..m.value] + docs[m.value + 1..]
        && |CommandStore(c, s, owner, newId)| == |s| - 1
      else CommandStore(c, s, owner, newId) == s
    ensures forall other :: other != owner ==>
      OwnedBy(CommandStore(c, s, owner, newId), other) == OwnedBy(s, other)
  {
    var docs, m := OwnedBy(s, owner), FindByName(OwnedBy(s, owner), c.rest);
    if c.rest != [] && m.Some? {
      var j := DeleteFoundRecord(s, owner, m.value);
      assert CommandStore(c, s, owner, newId) == RemoveId(s, s[j].id);
      assert |s[..j] + s[j + 1..]| == |s| - 1;
    } else {
      assert CommandStore(c, s, owner, newId) == s;
    }
  }

  /** How an "add task" command with remainder `task` changes the collection. */
  lemma AddCommandStore(task: string, s: seq<Task>, owner: string, newId: TaskId)
    ensures CommandAdds(AddTask(task)) == (task != []) && !CommandFound(AddTask(task), s, owner)
    ensures CommandStore(AddTask(task), s, owner, newId) == if task != [] then s + [Task(newId, task, owner, false)] else s
  {
  }

  /** How a "complete" command with remainder `name` changes the collection. */
  lemma CompleteCommandStore(name: string, s: seq<Task>, owner: string, newId: TaskId)
    ensures var docs := OwnedBy(s, owner); var m := FindByName(docs, name);
      !CommandAdds(Complete(name)) && CommandFound(Complete(name), s, owner) == (name != [] && m.Some?)
      && CommandStore(Complete(name), s, owner, newId) == if name != [] && m.Some? then RemoveId(s, docs[m.value].id) else s
  {
  }

  /** A handled command's line does not depend on the completion service. */
  lemma HandledReply(c: Command, found: bool, ask: string -> AiOutcome)
    requires c.AddTask? || c.Complete?
    ensures Reply(c, found, ask) == CommandReply(c, found)
  {
  }

  /** Only the two handled commands change the collection. */
  lemma InertCommandStore(c: Command, s: seq<Task>, owner: string, newId: TaskId)
    requires c.Empty? || c.Unhandled?
    ensures !CommandAdds(c) && !CommandFound(c, s, owner) && CommandStore(c, s, owner, newId) == s
  {
  }

  /**
   * The completeTaskByName finding: for a name none of the owner's tasks matches
   * ("complete milk" over an empty collection, say), the code as written leaves the
   * collection unchanged and still replies that the task was marked as complete,
   * where the awaited result gives "Task not found!".
   */
  lemma AsWrittenMisreports(name: string, s: seq<Task>, owner: string, newId: TaskId)
    requires name != [] && FindByName(OwnedBy(s, owner), name).None?
    ensures CommandStore(Complete(name), s, owner, newId) == s
    ensures AsWrittenCommandReply(Complete(name)) == BotLabel + ("Task '" + name + "' marked as complete.")
    ensures CommandReply(Complete(name), CommandFound(Complete(name), s, owner)) == BotLabel + "Task not found!"
    ensures AsWrittenCommandReply(Complete(name)) != CommandReply(Complete(name), CommandFound(Complete(name), s, owner))
  {
    ReplyNotFoundIff(name, true);
  }

  /** Chat commands keep the identifiers unique and below the identifier handed out next. */
  lemma CommandStoreValid(c: Command, s: seq<Task>, owner: string, newId: TaskId)
    requires UniqueIds(s) && IdsBelow(s, newId)
    ensures var n := if CommandAdds(c) then newId + 1 else newId;
      UniqueIds(CommandStore(c, s, owner, newId)) && IdsBelow(CommandStore(c, s, owner, newId), n)
  {
    if !CommandAdds(c) && CommandFound(c, s, owner) {
      var docs := OwnedBy(s, owner);
      RemoveIdValid(s, docs[FindByName(docs, c.rest).value].id, newId);
    }
  }

  class TodoApp {
    /** The signed-in user's email, read once from local storage. */
    const email: string
    /** The remote "todos" collection, every owner's records. */
    var tasks: seq<Task>
    /** The identifier the store hands out to the next record. */
    var nextId: TaskId
    /** The value of the task input field. */
    var taskInput: string
    /** The value of the chat input field. */
    var chatInput: string
    /** The `li` rows of the task list. */
    var taskList: seq<Row>
    /** The messages of the chat history, oldest first. */
    var chatHistory: seq<string>
    /** The messages of the alerts raised, oldest first. */
    var alerts: seq<string>

    ghost predicate Valid()
      reads this
    {
      UniqueIds(tasks) && IdsBelow(tasks, nextId)
    }

    /** The page as loaded over an existing collection: empty fields, lists and history. */
    constructor (email: string, stored: seq<Task>, nextId: TaskId)
      requires UniqueIds(stored) && IdsBelow(stored, nextId)
      ensures Valid()
      ensures this.email == email && tasks == stored && this.nextId == nextId
      ensures taskInput == [] && chatInput == [] && taskList == [] && chatHistory == [] && alerts == []
    {
      this.email := email;
      tasks := stored;
      this.nextId := nextId;
      taskInput, chatInput := [], [];
      taskList, chatHistory, alerts := [], [], [];
    }

    /** appendMessage: one more line at the end of the chat history. */
    method AppendMessage(message: string)
      modifies this`chatHistory
      ensures chatHistory == old(chatHistory) + [message]
    {
      chatHistory := chatHistory + [message];
    }

    /** addTaskToFirestore: a new record with a fresh identifier, the session's email and completed false. */
    method AddTaskToFirestore(text: string)
      requires Valid()
      modifies this`tasks, this`nextId
      ensures Valid()
      ensures tasks == old(tasks) + [Task(old(nextId), text, email, false)] && nextId == old(nextId) + 1
    {
      tasks := tasks + [Task(nextId, text, email, false)];
      nextId := nextId + 1;
    }

    /** getTasksFromFirestore: the records whose email is the session's, in collection order. */
    method GetTasksFromFirestore() returns (docs: seq<Task>)
      ensures docs == OwnedBy(tasks, email)
      ensures forall t :: t in docs <==> t in tasks && t.email == email
    {
      docs := OwnedBy(tasks, email);
      OwnedByMembers(tasks, email);
    }

    /** renderTasks: the list is cleared and gets one row per listed record, in listing order. */
    method RenderTasks()
      modifies this`taskList
      ensures taskList == Rows(OwnedBy(tasks, email))
    {
      var docs := GetTasksFromFirestore();
      taskList := [];
      for i := 0 to |docs|
        invariant taskList == Rows(docs[..i])
      {
        RowsSnoc(docs, i);
        taskList := taskList + [RowOf(docs[i])];
      }
      assert docs[..|docs|] == docs;
    }

    /** deleteTask: the record with this identifier is removed, nothing else. */
    method DeleteTask(id: TaskId)
      requires Valid()
      modifies this`tasks
      ensures Valid()
      ensures tasks == RemoveId(old(tasks), id)
    {
      RemoveIdValid(tasks, id, nextId);
      tasks := RemoveId(tasks, id);
    }

    /** handleTaskClick: a click on a row deletes its record and removes that row only. */
    method HandleTaskClick(target: Target)
      requires Valid()
      requires target.Item? ==> target.index < |taskList|
      modifies this`tasks, this`taskList
      ensures Valid()
      ensures target.Item? ==>
        tasks == RemoveId(old(tasks), old(taskList)[target.index].id)
        && taskList == old(taskList)[..target.index] + old(taskList)[target.index + 1..]
      ensures target.Elsewhere? ==> tasks == old(tasks) && taskList == old(taskList)
    {
      if target.Item? {
        DeleteTask(taskList[target.index].id);
        taskList := taskList[..target.index] + taskList[target.index + 1..];
      }
    }

    /**
     * handleTaskKeyPress: Enter on a row marks its record complete and re-renders; when
     * no record has that identifier, updateDoc fails, the error is logged and nothing changes.
     */
    method HandleTaskKeyPress(target: Target, key: string)
      requires Valid()
      requires target.Item? ==> target.index < |taskList|
      modifies this`tasks, this`taskList
      ensures Valid()
      ensures if target.Item? && key == "Enter" && HasId(old(tasks), old(taskList)[target.index].id) then
          tasks == SetCompleted(old(tasks), old(taskList)[target.index].id)
          && taskList == Rows(OwnedBy(tasks, email))
        else tasks == old(tasks) && taskList == old(taskList)
    {
      if target.Item? && key == "Enter" {
        var id := taskList[target.index].id;
        if HasId(tasks, id) {
          tasks := SetCompleted(tasks, id);
          RenderTasks();
        }
      }
    }

    /** The awaited part of handleAddTask's success path: store the record, then re-render. */
    method StoreTask(text: string)
      requires Valid()
      modifies this`tasks, this`nextId, this`taskList
      ensures Valid()
      ensures tasks == old(tasks) + [Task(old(nextId), text, email, false)] && nextId == old(nextId) + 1
      ensures taskList == Rows(OwnedBy(tasks, email))
    {
      AddTaskToFirestore(text);
      RenderTasks();
    }

    /**
     * handleAddTask: stores what AddOutcomeOf decides and re-renders, clearing the task
     * field only when the text came from it; otherwise raises the alert and changes nothing.
     */
    method HandleAddTask(arg: AddArg)
      requires Valid()
      modifies this`tasks, this`nextId, this`taskList, this`taskInput, this`alerts
      ensures Valid()
      ensures var o := AddOutcomeOf(arg, old(taskInput));
        if o.Stored? then
          tasks == old(tasks) + [Task(old(nextId), o.text, email, false)] && nextId == old(nextId) + 1
          && taskList == Rows(OwnedBy(tasks, email)) && alerts == old(alerts)
          && taskInput == (if o.clearField then [] else old(taskInput))
        else
          tasks == old(tasks) && nextId == old(nextId) && taskList == old(taskList)
          && alerts == old(alerts) + [o.message] && taskInput == old(taskInput)
    {
      if arg.ClickEvent? {
        alerts := alerts + [AddFailedAlert];
        return;
      }
      var fromChat := arg.ChatText? && arg.text != [];
      var text := if fromChat then arg.text else Sanitize(Trim(taskInput));
      AddOutcomeText(arg, taskInput);
      if text != [] {
        StoreTask(text);
        if !fromChat {
          taskInput := [];
        }
      } else {
        alerts := alerts + [EnterTaskAlert];
      }
    }

    /** handleEnterKey: Enter in the task field adds the field's text. */
    method HandleEnterKey(key: string)
      requires Valid()
      modifies this`tasks, this`nextId, this`taskList, this`taskInput, this`alerts
      ensures Valid()
      ensures key == "Enter" ==> var o := AddOutcomeOf(NoText, old(taskInput));
        if o.Stored? then
          tasks == old(tasks) + [Task(old(nextId), o.text, email, false)] && nextId == old(nextId) + 1
          && taskList == Rows(OwnedBy(tasks, email)) && alerts == old(alerts) && taskInput == []
        else
          tasks == old(tasks) && nextId == old(nextId) && taskList == old(taskList)
          && alerts == old(alerts) + [o.message] && taskInput == old(taskInput)
      ensures key != "Enter" ==> (tasks == old(tasks) && taskList == old(taskList) && alerts == old(alerts)
                                  && taskInput == old(taskInput) && nextId == old(nextId))
    {
      if key == "Enter" {
        HandleAddTask(NoText);
      }
    }

    /** The add button as bound: its listener hands the click event to handleAddTask. */
    method ClickAddButton()
      requires Valid()
      modifies this`tasks, this`nextId, this`taskList, this`taskInput, this`alerts
      ensures Valid()
      ensures tasks == old(tasks) && nextId == old(nextId) && taskList == old(taskList) && taskInput == old(taskInput)
      ensures alerts == old(alerts) + [AddFailedAlert]
    {
      HandleAddTask(ClickEvent);
    }

    /** The add button as intended: the same as Enter in the task field. */
    method ClickAddButtonIntended()
      requires Valid()
      modifies this`tasks, this`nextId, this`taskList, this`taskInput, this`alerts
      ensures Valid()
      ensures var o := AddOutcomeOf(NoText, old(taskInput));
        if o.Stored? then
          tasks == old(tasks) + [Task(old(nextId), o.text, email, false)] && nextId == old(nextId) + 1
          && taskList == Rows(OwnedBy(tasks, email)) && alerts == old(alerts) && taskInput == []
        else
          tasks == old(tasks) && nextId == old(nextId) && taskList == old(taskList)
          && alerts == old(alerts) + [EnterTaskAlert] && taskInput == old(taskInput)
    {
      HandleAddTask(NoText);
    }

    /**
     * completeTaskByName: deletes the first of the session's records whose text matches
     * `name` ignoring case and re-renders, returning whether there was one.
     */
    method CompleteTaskByName(name: string) returns (found: bool)
      requires Valid()
      modifies this`tasks, this`taskList
      ensures Valid()
      ensures var docs := OwnedBy(old(tasks), email);
        var m := FindByName(docs, name);
        found == m.Some?
        && (m.Some? ==> tasks == RemoveId(old(tasks), docs[m.value].id) && taskList == Rows(OwnedBy(tasks, email)))
        && (m.None? ==> tasks == old(tasks) && taskList == old(taskList))
    {
      var docs := GetTasksFromFirestore();
      var m := FindByName(docs, name);
      if m.Some? {
        DeleteTask(docs[m.value].id);
        RenderTasks();
        found := true;
      } else {
        found := false;
      }
    }

    /** The "add task" branch of handleChatCommand, `task` being the trimmed remainder. */
    method AddTaskCommand(task: string)
      requires Valid()
      modifies this`tasks, this`nextId, this`taskList, this`taskInput, this`alerts, this`chatHistory
      ensures Valid()
      ensures var c := AddTask(task);
        chatHistory == old(chatHistory) + [CommandReply(c, CommandFound(c, old(tasks), email))]
        && tasks == CommandStore(c, old(tasks), email, old(nextId))
        && nextId == (if CommandAdds(c) then old(nextId) + 1 else old(nextId))
        && taskList == (if CommandAdds(c) || CommandFound(c, old(tasks), email) then Rows(OwnedBy(tasks, email)) else old(taskList))
      ensures alerts == old(alerts) && taskInput == old(taskInput)
    {
      AddCommandStore(task, tasks, email, nextId);
      if task != [] {
        AddChatText(task, taskInput);
        HandleAddTask(ChatText(task));
        AppendMessage(BotLabel + ("Task '" + task + "' added!"));
      } else {
        AppendMessage(BotLabel + "Please specify a task to add.");
      }
    }

    /**
     * The "complete" branch of handleChatCommand, `taskName` being the trimmed remainder;
     * the result of completeTaskByName is awaited here (see AsWrittenCommandReply).
     */
    method CompleteCommand(taskName: string)
      requires Valid()
      modifies this`tasks, this`nextId, this`taskList, this`taskInput, this`alerts, this`chatHistory
      ensures Valid()
      ensures var c := Complete(taskName);
        chatHistory == old(chatHistory) + [CommandReply(c, CommandFound(c, old(tasks), email))]
        && tasks == CommandStore(c, old(tasks), email, old(nextId))
        && nextId == (if CommandAdds(c) then old(nextId) + 1 else old(nextId))
        && taskList == (if CommandAdds(c) || CommandFound(c, old(tasks), email) then Rows(OwnedBy(tasks, email)) else old(taskList))
      ensures alerts == old(alerts) && taskInput == old(taskInput)
    {
      CompleteCommandStore(taskName, tasks, email, nextId);
      ghost var found := CommandFound(Complete(taskName), tasks, email);
      if taskName != [] {
        var taskFound := CompleteTaskByName(taskName);
        assert taskFound == found;
        if taskFound {
          AppendMessage(BotLabel + ("Task '" + taskName + "' marked as complete."));
        } else {
          AppendMessage(BotLabel + "Task not found!");
        }
      } else {
        AppendMessage(BotLabel + "Please specify a task to complete.");
      }
    }

    /**
     * handleChatCommand: handles the two keywords, "add task" first, appending the
     * command's reply; returns whether the prompt was handled.
     */
    method HandleChatCommand(prompt: string) returns (handled: bool)
      requires Valid()
      modifies this`tasks, this`nextId, this`taskList, this`taskInput, this`alerts, this`chatHistory
      ensures Valid()
      ensures var c := ClassifyPrompt(prompt);
        handled == !c.Unhandled?
        && chatHistory == old(chatHistory) + (if c.Unhandled? then [] else [CommandReply(c, CommandFound(c, old(tasks), email))])
        && tasks == CommandStore(c, old(tasks), email, old(nextId))
        && nextId == (if CommandAdds(c) then old(nextId) + 1 else old(nextId))
        && taskList == (if CommandAdds(c) || CommandFound(c, old(tasks), email) then Rows(OwnedBy(tasks, email)) else old(taskList))
      ensures alerts == old(alerts) && taskInput == old(taskInput)
    {
      if StartsWith(prompt, AddTaskPrefix) {
        var task := Trim(RemoveFirst(prompt, AddTaskPrefix));
        AddTaskCommand(task);
        handled := true;
      } else if StartsWith(prompt, CompletePrefix) {
        var taskName := Trim(RemoveFirst(prompt, CompletePrefix));
        CompleteCommand(taskName);
        handled := true;
      } else {
        handled := false;
      }
    }

    /** The try block of handleChatSend: the completion service's answer, or the error line, is appended. */
    method ForwardToAi(prompt: string, ask: string -> AiOutcome)
      modifies this`chatHistory
      ensures chatHistory == old(chatHistory) + [Reply(Unhandled(prompt), false, ask)]
    {
      var result := ask(prompt);
      match result
      case AiText(t) => AppendMessage(BotLabel + t);
      case AiFailure => AppendMessage(BotLabel + "Sorry, I encountered an error. Please try again.");
    }

    /** The non-empty branch of handleChatSend: a command is handled, anything else goes to `ask`. */
    method SendPrompt(prompt: string, ask: string -> AiOutcome)
      requires Valid()
      modifies this`tasks, this`nextId, this`taskList, this`taskInput, this`alerts, this`chatHistory
      ensures Valid()
      ensures var c := ClassifyPrompt(prompt);
        chatHistory == old(chatHistory) + [Reply(c, CommandFound(c, old(tasks), email), ask)]
        && tasks == CommandStore(c, old(tasks), email, old(nextId))
        && nextId == (if CommandAdds(c) then old(nextId) + 1 else old(nextId))
        && taskList == (if CommandAdds(c) || CommandFound(c, old(tasks), email) then Rows(OwnedBy(tasks, email)) else old(taskList))
      ensures alerts == old(alerts) && taskInput == old(taskInput)
    {
      ghost var c := ClassifyPrompt(prompt);
      if c.Unhandled? {
        InertCommandStore(c, tasks, email, nextId);
      }
      var handled := HandleChatCommand(prompt);
      if !handled {
        ForwardToAi(prompt, ask);
      } else {
        HandledReply(c, CommandFound(c, old(tasks), email), ask);
      }
    }

    /** The else branch of handleChatSend: only the request for a message is appended. */
    method SendEmpty(ask: string -> AiOutcome)
      modifies this`chatHistory
      ensures chatHistory == old(chatHistory) + [Reply(Empty, CommandFound(Empty, tasks, email), ask)]
      ensures !CommandAdds(Empty) && CommandStore(Empty, tasks, email, nextId) == tasks
    {
      AppendMessage(BotLabel + "Please enter a message");
    }

    /**
     * handleChatSend: classifies the chat field, lets handleChatCommand or the completion
     * service `ask` answer, and clears the field unless it held only whitespace.
     */
    method HandleChatSend(ask: string -> AiOutcome)
      requires Valid()
      modifies this`tasks, this`nextId, this`taskList, this`taskInput, this`alerts, this`chatHistory, this`chatInput
      ensures Valid()
      ensures var c := Classify(old(chatInput));
        chatHistory == old(chatHistory) + [Reply(c, CommandFound(c, old(tasks), email), ask)]
        && chatInput == (if c.Empty? then old(chatInput) else [])
        && tasks == CommandStore(c, old(tasks), email, old(nextId))
        && nextId == (if CommandAdds(c) then old(nextId) + 1 else old(nextId))
        && taskList == (if CommandAdds(c) || CommandFound(c, old(tasks), email) then Rows(OwnedBy(tasks, email)) else old(taskList))
      ensures alerts == old(alerts) && taskInput == old(taskInput)
    {
      var prompt := Prompt(chatInput);
      ClassifyOf(chatInput);
      if prompt != [] {
        SendPrompt(prompt, ask);
        chatInput := [];
      } else {
        SendEmpty(ask);
      }
    }
  }
}
