# pwa-todo-app: the TodoApp controller, in Dafny

This project models the `TodoApp` class of `assets/js/tasks.js`, the controller of a to-do list page.
The class keeps the signed-in user's tasks in a remote "todos" collection and renders them as list rows.
It adds a task when Enter is pressed in the task field. The add button is meant to do the same, but as bound it raises the failure alert (see Findings).
It deletes a task when its row is clicked.
It marks a task complete when Enter is pressed on its row.
A chat box accepts two commands: `add task <text>` and `complete <name>`.
Anything else typed there goes to a generative-language completion service, and its answer is shown.

The model is split by concern:

- `JsString` (`js_string.dfy`) gives the JavaScript string operations the parser uses: `trim`, `toLowerCase`, `startsWith`, `indexOf`, and `replace(pat, "")` with a string pattern and an empty replacement, which removes the first occurrence only.
- `Html` (`html.dfy`) gives `sanitizeInput`, which sets `textContent` on a detached element and reads back `innerHTML`. That is the HTML serialiser's text escape, and the module proves it can be undone.
- `Store` (`store.dfy`) gives the collection as a sequence of records. It covers the owner query, delete and mark-complete by identifier, `tasks.find` by case-insensitive name, and the rows `renderTasks` builds.
- `Chat` (`chat.dfy`) gives `handleChatSend`/`handleChatCommand` as a pure classifier from the typed text to a `Command`, plus the one chat line each outcome appends.
- `TodoApp` (`todo_app.dfy`) is the class itself. Its fields are:
  - the collection `tasks`
  - the next identifier `nextId`
  - the two input fields
  - the rendered `taskList`
  - the `chatHistory`
  - the `alerts` raised

  Its methods are the handlers. Each one is proved against the functions `AddOutcomeOf` and `CommandStore` and the `Store`/`Chat` functions. Each also keeps the invariant that record identifiers are unique and below `nextId`.

The remote store and the completion service are replaced:

- The collection is the field `tasks`, and the identifier the store assigns is the counter `nextId`.
- The completion service is the parameter `ask: string -> AiOutcome`. Its failure is the `AiFailure` outcome, which takes the `catch` branch.

Two behaviours of the code are worth knowing:

- A chat `add task` stores the lower-cased remainder of the prompt as it is. It is never passed through `sanitizeInput` (tasks.js:88-90, 143). `TodoApp.AddChatText` and `TodoApp.ChatAddEffect` state this.
- The chat `complete` command deletes the matching record (tasks.js:122). Enter on a row only sets its completion flag (tasks.js:209-211).

## Model

| member | source | states |
|---|---|---|
| JsString.IsWhitespace | assets/js/tasks.js:67 | the characters `trim` strips: space, tab, line feed and carriage return are among them, and no ASCII letter or digit is |
| JsString.TrimStart | assets/js/tasks.js:67 | the result is a suffix of the input, does not start with whitespace, and everything dropped is whitespace |
| JsString.TrimEnd | assets/js/tasks.js:67 | the result is a prefix of the input, does not end with whitespace, and everything dropped is whitespace |
| JsString.Trim | assets/js/tasks.js:67 | `trim` leaves no whitespace at either end, never lengthens, and gives "" exactly when the input was all whitespace |
| JsString.TrimIsInfix | assets/js/tasks.js:143 | the trimmed string is a contiguous piece of the input with only whitespace on either side of it |
| JsString.TrimTrimmed | assets/js/tasks.js:88 | trimming a string with no whitespace at its ends returns it unchanged, so trim is idempotent |
| JsString.TrimSurrounded | assets/js/tasks.js:97 | any whitespace around a trimmed string is exactly what trim removes |
| JsString.ToLower | assets/js/tasks.js:67 | `toLowerCase` keeps the length and every whitespace position, gives a lower-case string, and preserves being trimmed |
| JsString.ToLowerAppend | assets/js/tasks.js:119 | lower-casing distributes over concatenation |
| JsString.ToLowerLower | assets/js/tasks.js:119 | a lower-case string is its own lower-case form, so toLowerCase is idempotent |
| JsString.StartsWith | assets/js/tasks.js:87-96 | defined as `startsWith`: the string is at least as long as the prefix and its first characters are the prefix |
| JsString.StartsWithConcat | assets/js/tasks.js:87-96 | `startsWith(prefix)` holds exactly when the string is the prefix followed by some rest |
| JsString.IndexOfFrom | assets/js/tasks.js:88 | the position found is an occurrence of the pattern with none before it; None means there is no occurrence at all |
| JsString.RemoveFirst | assets/js/tasks.js:88 | `replace(pat, "")` leaves the string alone when the pattern is absent, and otherwise makes it one pattern length shorter (RemoveFirstInverse says which occurrence goes) |
| JsString.RemoveFirstInverse | assets/js/tasks.js:97 | putting the pattern back at its first index undoes `replace(pat, "")` |
| JsString.RemovePrefix | assets/js/tasks.js:87-88 | after `startsWith(kw)`, `replace(kw, "")` strips exactly that prefix |
| Html.EscapeChar | assets/js/tasks.js:229-233 | a character is copied unchanged exactly when it is not `&`, `<`, `>` or U+00A0; those four become a character reference of at least four characters, from `&` to `;` |
| Html.Sanitize | assets/js/tasks.js:229-233 | the result is never shorter than the input, is empty exactly when the input is, and contains no `<` or `>` |
| Html.UnescapeEscapeChar | assets/js/tasks.js:229-233 | decoding one escaped character gives that character back |
| Html.UnescapeSanitize | assets/js/tasks.js:229-233 | decoding the escaped text always gives back the text that was typed |
| Html.SanitizeLonger | assets/js/tasks.js:229-233 | text holding `&`, `<`, `>` or U+00A0 gets strictly longer when escaped |
| Html.SanitizePlain | assets/js/tasks.js:229-233 | text without `&`, `<`, `>` or U+00A0 is stored unchanged |
| Store.OwnedBy | assets/js/tasks.js:184-188 | the owner query returns no more records than the collection holds, all of them the owner's |
| Store.OwnedByMembers | assets/js/tasks.js:184-188 | a record is in the listing exactly when it is in the collection and belongs to the owner |
| Store.OwnedByAppend | assets/js/tasks.js:184-188 | the query keeps the collection's order: it distributes over concatenation |
| Store.OwnedByUnique | assets/js/tasks.js:184-188 | a listing of a collection with unique identifiers has unique identifiers |
| Store.RemoveId | assets/js/tasks.js:201-203 | `deleteDoc` never grows the collection, and no record with the deleted identifier is left |
| Store.RemoveIdMembers | assets/js/tasks.js:201-203 | the records left are exactly those with a different identifier |
| Store.RemoveIdAbsent | assets/js/tasks.js:201-203 | deleting an identifier no record has changes nothing |
| Store.RemoveIdValid | assets/js/tasks.js:201-203 | deleting keeps identifiers unique and below the next one |
| Store.RemoveIdUnique | assets/js/tasks.js:201-203 | deleting keeps identifiers unique |
| Store.RemoveIdAt | assets/js/tasks.js:201-203 | with unique identifiers, deleting the identifier of record k removes only that record |
| Store.RemoveIdAppend | assets/js/tasks.js:201-203 | deleting by identifier distributes over concatenation |
| Store.OwnedByRemoveId | assets/js/tasks.js:184-203 | deleting then querying gives the same listing as querying then deleting |
| Store.SetCompleted | assets/js/tasks.js:209-211 | `updateDoc({completed: true})` keeps the length and every record's identifier, text and owner |
| Store.SetCompletedAt | assets/js/tasks.js:209-211 | with unique identifiers, only the chosen record's flag changes |
| Store.OwnedBySetCompleted | assets/js/tasks.js:205-212 | marking a record complete never moves a record into or out of a listing |
| Store.OwnedByAdded | assets/js/tasks.js:159-166 | an added record shows up at the end of its owner's listing and in no other owner's |
| Store.NameMatches | assets/js/tasks.js:119 | two texts that match ignoring case have the same length |
| Store.NameMatchesIff | assets/js/tasks.js:119 | texts match exactly when they have one length and agree character by character once lower-cased |
| Store.FindFrom | assets/js/tasks.js:118-120 | the result is the first position at or after `from` whose text matches ignoring case; None means no such position exists |
| Store.FindByName | assets/js/tasks.js:118-120 | `tasks.find` returns the first record whose lower-cased text equals the lower-cased name; None exactly when no record matches |
| Store.Rows | assets/js/tasks.js:172-178 | renderTasks produces one row per listed record, in order, carrying that record's id and text |
| Store.RowsSnoc | assets/js/tasks.js:172-178 | rendering one more record appends exactly its row |
| Store.RowRemovalMatchesRender | assets/js/tasks.js:190-199 | removing the clicked row in place leaves exactly what a fresh render would show after the delete |
| Store.RowsWithout | assets/js/tasks.js:172-178 | rendering a listing with one record removed gives the rendered rows with that one row removed |
| Store.DeleteFoundRecord | assets/js/tasks.js:115-125 | deleting the match removes exactly one record of the collection; the owner's listing loses only that entry and other owners' listings are unchanged |
| Store.OwnedByWithout | assets/js/tasks.js:184-188 | removing another owner's record leaves this owner's listing unchanged |
| Chat.Prompt | assets/js/tasks.js:67 | the prompt is trimmed and lower case, and is empty exactly when only whitespace was typed |
| Chat.ClassifyPrompt | assets/js/tasks.js:86-112 | the prompt is an "add task" command exactly when it starts with "add task"; it is a "complete" command exactly when it starts with "complete" but not "add task"; otherwise the whole prompt is unhandled. A command's argument is trimmed and no longer than the prompt |
| Chat.Classify | assets/js/tasks.js:67-68 | the input is Empty exactly when it is all whitespace; an unhandled input carries the non-empty prompt; a command's argument is trimmed |
| Chat.AfterKeyword | assets/js/tasks.js:88-97 | `prompt.replace(keyword, "").trim()` is trimmed and never longer than the prompt |
| Chat.HandledIff | assets/js/tasks.js:86-113 | handleChatCommand handles the prompt exactly when it starts with "add task" or "complete"; the empty case happens exactly for all-whitespace input |
| Chat.CommandRest | assets/js/tasks.js:87-97 | a handled command's argument is the prompt after its keyword, trimmed, and is lower case |
| Chat.Remainder | assets/js/tasks.js:88 | `replace(kw, "").trim()` on a prompt that starts with kw is the trimmed rest, and lower-case text stays lower case |
| Chat.LowerTrim | assets/js/tasks.js:67 | trimming a lower-case string keeps it lower case |
| Chat.UnhandledPrompt | assets/js/tasks.js:69-71 | what goes to the completion service is the whole prompt: non-empty, trimmed, lower case, and starting with neither keyword |
| Chat.ClassifyCommand | assets/js/tasks.js:67-97 | a keyword in any case, with any surrounding whitespace, is recognised, and the command carries the lower-cased argument |
| Chat.KeywordArgument | assets/js/tasks.js:87-97 | keyword + whitespace + trimmed argument gives that command with exactly that argument |
| Chat.KeywordPrompt | assets/js/tasks.js:87-97 | a prompt starting with a keyword is classified by that keyword, carrying the trimmed remainder |
| Chat.TypedPrompt | assets/js/tasks.js:67 | the prompt of such input is the lower-cased keyword, separator and argument |
| Chat.CommandReply | assets/js/tasks.js:91-108 | every command reply is a "Bot: " line, and a reply to an added or found task quotes the argument right after "Bot: Task '" |
| Chat.Reply | assets/js/tasks.js:72-82 | every line handleChatSend appends is a "Bot: " line |
| Chat.AsWrittenCommandReply | assets/js/tasks.js:99-102 | as written, a non-empty "complete" is always answered "marked as complete", because the un-awaited result counts as found |
| Chat.ReplyConsultsAi | assets/js/tasks.js:66-79 | the reply depends on the completion service only for an unhandled prompt, and only through its answer to that prompt |
| Chat.ReplyNotFoundIff | assets/js/tasks.js:99-106 | for a non-empty name, the reply is "Task not found!" exactly when no task was found |
| Chat.AsWrittenNeverNotFound | assets/js/tasks.js:99-105 | as written, no chat command can ever reply "Task not found!" |
| TodoApp.AddOutcomeOf | assets/js/tasks.js:143-155 | a stored text is never empty, and the field is cleared exactly when no chat text was given; an alert is raised exactly for the click event or for an all-whitespace field with no chat text; the click gets the failure alert and the rest get "Please enter a task!" |
| TodoApp.FieldOutcome | assets/js/tasks.js:143-151 | the field path `sanitizeInput(taskInput.value.trim())` with the `if (text)` test: a task is stored exactly when the field is not all whitespace, the field is then cleared, and otherwise "Please enter a task!" is raised |
| TodoApp.AddOutcomeText | assets/js/tasks.js:141-152 | the add handler stores the chat text if it is non-empty, and otherwise the sanitised trimmed field; when that chosen text is empty, it raises "Please enter a task!" |
| TodoApp.AddChatText | assets/js/tasks.js:143-149 | chat text is stored as given, without sanitising, and the task field is not cleared |
| TodoApp.AddFromField | assets/js/tasks.js:143-151 | from the field, a task is stored exactly when the field holds more than whitespace; the stored text decodes back to the trimmed field, has no markup, and the field is cleared |
| TodoApp.ClickStoresNothing | assets/js/tasks.js:34 | for plain text in the field, the bound button raises the failure alert while Enter stores that text |
| TodoApp.ChatAddEffect | assets/js/tasks.js:87-91 | "add task R" appends one record holding lower-case trimmed R, not completed, owned by the session, at the end of the owner's listing; other owners' listings do not change |
| TodoApp.ChatCompleteEffect | assets/js/tasks.js:96-99 | "complete R" deletes only the first matching record of the owner, so the listing loses only that entry; with no match or no name, nothing changes; other owners see no change |
| TodoApp.CommandStore | assets/js/tasks.js:86-113 | an adding command appends one record with the new id, the command's text, the session's email and completed false, leaving the old ones in place; any other command never grows the collection, and leaves it unchanged unless a task was found |
| TodoApp.AsWrittenEscapedText | assets/js/tasks.js:143-176 | field text holding a markup character is stored escaped, so its row does not show what was typed and "complete" with the typed text finds nothing |
| TodoApp.FieldOutcomeIntended | assets/js/tasks.js:143-151 | the intended field path stores the trimmed text exactly when the field is not all whitespace, and otherwise raises "Please enter a task!" |
| TodoApp.IntendedTextShown | assets/js/tasks.js:172-178 | stored as intended, a task's row shows exactly what was typed and "complete" with that text finds it |
| TodoApp.AsWrittenMisreports | assets/js/tasks.js:99-105 | for a name nothing matches, the code deletes nothing yet replies that the task was marked complete, whereas the awaited reply is "Task not found!" |
| TodoApp.CommandStoreValid | assets/js/tasks.js:86-113 | chat commands keep identifiers unique and below the next one |
| TodoApp.TodoApp.constructor | assets/js/tasks.js:20-31 | the page starts over the existing collection with empty fields, an empty list and an empty history |
| TodoApp.TodoApp.AppendMessage | assets/js/tasks.js:133-139 | appends exactly one line to the end of the chat history |
| TodoApp.TodoApp.AddTaskToFirestore | assets/js/tasks.js:159-166 | appends one record with a new identifier, the session's email and completed false |
| TodoApp.TodoApp.GetTasksFromFirestore | assets/js/tasks.js:184-188 | returns the owner query's result, whose members are exactly the session's records |
| TodoApp.TodoApp.RenderTasks | assets/js/tasks.js:168-182 | the list becomes the rows of the session's listing, one per record, in order |
| TodoApp.TodoApp.DeleteTask | assets/js/tasks.js:201-203 | the collection loses the records with that identifier, and the invariant is kept |
| TodoApp.TodoApp.HandleTaskClick | assets/js/tasks.js:190-199 | a click on row k deletes its record and removes that row only; a click elsewhere changes nothing |
| TodoApp.TodoApp.HandleTaskKeyPress | assets/js/tasks.js:205-217 | Enter on a row whose record exists marks it complete and re-renders; otherwise nothing changes |
| TodoApp.TodoApp.StoreTask | assets/js/tasks.js:145-146 | stores the record, then re-renders the session's listing |
| TodoApp.TodoApp.HandleAddTask | assets/js/tasks.js:141-157 | stores and re-renders what AddOutcomeOf decides, clearing the field only for field text; otherwise it raises that alert and changes nothing else |
| TodoApp.TodoApp.HandleEnterKey | assets/js/tasks.js:219-223 | Enter does what handleAddTask does with no argument: it stores the sanitised field text, re-renders and clears the field, or it raises "Please enter a task!" and changes nothing else; any other key changes nothing |
| TodoApp.TodoApp.ClickAddButton | assets/js/tasks.js:34 | the button as bound leaves the collection, counter, list and field alone, and raises "Failed to add task. Please try again." |
| TodoApp.TodoApp.ClickAddButtonIntended | assets/js/tasks.js:34 | the intended button stores the sanitised field text, re-renders and clears the field, or raises "Please enter a task!" and changes nothing else |
| TodoApp.TodoApp.CompleteTaskByName | assets/js/tasks.js:115-131 | returns whether a record of the session matches; if so, deletes the first match and re-renders, otherwise changes nothing |
| TodoApp.TodoApp.AddTaskCommand | assets/js/tasks.js:87-95 | the "add task" branch: the collection becomes CommandStore's, with exactly one reply line |
| TodoApp.TodoApp.CompleteCommand | assets/js/tasks.js:96-110 | the "complete" branch: the collection becomes CommandStore's, and the reply reports whether a task was found |
| TodoApp.TodoApp.HandleChatCommand | assets/js/tasks.js:86-113 | returns true exactly for a keyword prompt; the collection, identifiers, list and history change as the classified command dictates, with the awaited "complete" reply of CompleteCommand (the as-written line is Chat.AsWrittenCommandReply) |
| TodoApp.TodoApp.ForwardToAi | assets/js/tasks.js:70-78 | appends "Bot: " plus the service's answer, or the apology when the service fails |
| TodoApp.TodoApp.SendPrompt | assets/js/tasks.js:68-79 | a non-empty prompt is handled as a command or answered by the service, with exactly one line appended; a command's line is the awaited reply, not Chat.AsWrittenCommandReply |
| TodoApp.TodoApp.SendEmpty | assets/js/tasks.js:81-83 | an empty prompt appends only "Bot: Please enter a message" and changes no task |
| TodoApp.TodoApp.HandleChatSend | assets/js/tasks.js:66-84 | exactly one reply line per send; the collection changes as the command dictates; the chat field is cleared unless it held only whitespace; a "complete" line is the awaited reply, not Chat.AsWrittenCommandReply |

## Left out

- The remote document store, the sign-in service and the completion service are not called. The collection is a field of the object, and the completion service is the parameter `ask`.
- Store identifiers are modelled as a counter `nextId` rather than random opaque strings. The listing order is modelled as insertion order, which the store does not guarantee.
- The `createdAt` timestamp is not modelled; it needs a clock.
- Store and network failures are not modelled, nor the `catch` blocks that only log them. There are two exceptions:
  - `updateDoc` on a missing record (HandleTaskKeyPress leaves the state unchanged);
  - the click event handed to handleAddTask (the failure alert).
- `async`/`await` interleavings are not modelled. Each handler runs to completion, one after another, so concurrent clicks and out-of-order responses are not captured.
- DOM details are not modelled: the elements, `tabIndex`, scrolling of the chat history, and the event objects beyond their target and key.
- The redirect on a missing session (tasks.js:15-18) and handleSignOut are left out, because they only navigate and use local storage. initializeTasks is left out too: it only calls renderTasks.
- The chat field's own Enter binding (tasks.js:42-46) is left out. It simply calls handleChatSend.
- assets/js/signIn.js, assets/js/firebase.js, app.js, service-worker.js and eslint.config.js are not part of this model.
- JsString.ToLowerChar: maps only ASCII and Latin-1 capital letters. `toLowerCase` maps every cased Unicode character, including those whose lower case is longer than one code unit.
- JsString.ToLower: inherits that character range from ToLowerChar.
- TodoApp.TodoApp.HandleChatCommand: follows the corrected, awaited reply of CompleteCommand. For "complete milk" with no match it appends "Bot: Task not found!", which the code as written never appends; that line is Chat.AsWrittenCommandReply.
- TodoApp.TodoApp.SendPrompt: follows the same corrected reply through HandleChatCommand.
- TodoApp.TodoApp.HandleChatSend: follows the same corrected reply through SendPrompt.
- TodoApp.TodoApp.HandleAddTask: keeps the code's escaping of field text, so an escaped record is shown and searched as stored (see the escaping finding); TodoApp.FieldOutcomeIntended is not wired into the class.
- TodoApp.TodoApp.HandleTaskKeyPress: requires the row the key was pressed on to exist in the list, which the DOM guarantees for a key press on an `li`.
- JavaScript strings are sequences of UTF-16 code units, while a Dafny `string` holds Unicode scalar values, so lone surrogates cannot be represented and lengths of text outside the Basic Multilingual Plane differ.
- TodoApp.TodoApp.HandleTaskClick: requires the clicked row to exist in the list, which the DOM guarantees for a click on an `li`.
- TodoApp.AddOutcomeOf: the click-event case returns the failure alert. This assumes that the store's `addDoc` rejects an Event object as a field value, which the model cannot see.

## Findings

| source | as written | input that shows it | evidently intended | confidence | as-written member | corrected member |
|---|---|---|---|---|---|---|
| assets/js/tasks.js:99-105 | completeTaskByName is async and called without `await`, so `taskFound` is a Promise. A Promise is always truthy, so the reply is always "marked as complete" | chat "complete milk" when no task is named milk: nothing is deleted, yet the reply is "Bot: Task 'milk' marked as complete." | await the result and reply "Bot: Task not found!" when nothing matched | high, not executed | Chat.AsWrittenCommandReply (TodoApp.AsWrittenMisreports, Chat.AsWrittenNeverNotFound) | TodoApp.TodoApp.CompleteCommand (with Chat.CommandReply, Chat.ReplyNotFoundIff) |
| assets/js/tasks.js:34 | the button's listener is `handleAddTask.bind(this)`, so the click Event arrives as `taskText`. It is truthy and becomes the text to store | typing "Buy milk" and clicking the button: the failure alert is raised instead of storing the task, while Enter stores it | call handleAddTask with no argument, as handleEnterKey does, so the field's text is used | medium, not executed | TodoApp.TodoApp.ClickAddButton (TodoApp.ClickStoresNothing) | TodoApp.TodoApp.ClickAddButtonIntended |
| assets/js/tasks.js:143-176 | field text goes through sanitizeInput, which escapes it into HTML, and renderTasks then shows the stored text through `textContent`, which displays it literally | typing "a&b" and pressing Enter stores "a&amp;b"; the row reads "a&amp;b", and chat "complete a&b" deletes nothing, as no record matches (the awaited reply is "Bot: Task not found!") | store the trimmed text as typed, since `textContent` already renders it as plain text | medium, not executed | TodoApp.AsWrittenEscapedText (Html.SanitizeLonger) | TodoApp.FieldOutcomeIntended (TodoApp.IntendedTextShown) |
