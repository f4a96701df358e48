/**
 * The chat command parser of TodoApp (handleChatSend, handleChatCommand) as a pure
 * classifier of the utterance, and the one chat line each outcome appends.
 */
module Chat {
  import opened JsString

  const AddTaskPrefix: string := "add task"
  const CompletePrefix: string := "complete"

  /** What handleChatSend does with one utterance. */
  datatype Command =
    | Empty                     // nothing but whitespace was typed
    | AddTask(rest: string)     // "add task ...": `rest` is the trimmed remainder, maybe empty
    | Complete(rest: string)    // "complete ...": `rest` is the trimmed remainder, maybe empty
    | Unhandled(prompt: string) // anything else, forwarded to the completion service

  /** The completion service's answer to a forwarded prompt, or its failure. */
  datatype AiOutcome = AiText(text: string) | AiFailure

  /** `chatInput.value.trim().toLowerCase()`. */
  function Prompt(input: string): (p: string)
    ensures IsTrimmed(p) && IsLowerCase(p)
    ensures |p| <= |input|
    ensures p == [] <==> AllWhitespace(input)
  {
    ToLower(Trim(input))
  }

  /** handleChatCommand's decision on a non-empty prompt; "add task" is tested first. */
  function ClassifyPrompt(prompt: string): (c: Command)
    ensures c.AddTask? <==> StartsWith(prompt, AddTaskPrefix)
    ensures c.Complete? <==> !StartsWith(prompt, AddTaskPrefix) && StartsWith(prompt, CompletePrefix)
    ensures c.Unhandled? ==> c.prompt == prompt
    ensures (c.AddTask? || c.Complete?) ==> IsTrimmed(c.rest) && |c.rest| <= |prompt|
  {
    if StartsWith(prompt, AddTaskPrefix) then AddTask(AfterKeyword(prompt, AddTaskPrefix))
    else if StartsWith(prompt, CompletePrefix) then Complete(AfterKeyword(prompt, CompletePrefix))
    else Unhandled(prompt)
  }

  /** `prompt.replace(keyword, "").trim()`. */
  function AfterKeyword(prompt: string, keyword: string): (r: string)
    ensures IsTrimmed(r) && |r| <= |prompt|
  {
    Trim(RemoveFirst(prompt, keyword))
  }

  /** handleChatSend's classification of what was typed. */
  function Classify(input: string): (c: Command)
    ensures c.Empty? <==> AllWhitespace(input)
    ensures c.Unhandled? ==> c.prompt == Prompt(input) && c.prompt != []
    ensures (c.AddTask? || c.Complete?) ==> IsTrimmed(c.rest) && |c.rest| <= |input|
  {
    var p := Prompt(input);
    if p == [] then Empty else ClassifyPrompt(p)
  }

  /** handleChatSend's test: an empty prompt is the Empty command, any other is classified. */
  lemma ClassifyOf(input: string)
    ensures Prompt(input) == [] ==> Classify(input) == Empty
    ensures Prompt(input) != [] ==> Classify(input) == ClassifyPrompt(Prompt(input))
  {
  }

  /** handleChatCommand returns true exactly when the prompt starts with one of the two keywords. */
  lemma HandledIff(input: string)
    ensures var c, p := Classify(input), Prompt(input);
      (c.AddTask? || c.Complete?) <==> (StartsWith(p, AddTaskPrefix) || StartsWith(p, CompletePrefix))
    ensures Classify(input).Empty? <==> AllWhitespace(input)
  {
  }

  /** The keyword a handled command was recognised by. */
  function Keyword(c: Command): string
    requires c.AddTask? || c.Complete?
  {
    if c.AddTask? then AddTaskPrefix else CompletePrefix
  }

  /**
   * What a command carries is the prompt after its keyword, trimmed: it is lower case
   * and has no whitespace at either end.
   */
  lemma CommandRest(input: string)
    requires Classify(input).AddTask? || Classify(input).Complete?
    ensures StartsWith(Prompt(input), Keyword(Classify(input)))
    ensures Classify(input).rest == Trim(Prompt(input)[|Keyword(Classify(input))|..])
    ensures IsTrimmed(Classify(input).rest) && IsLowerCase(Classify(input).rest)
  {
    var p := Prompt(input);
    var kw := if StartsWith(p, AddTaskPrefix) then AddTaskPrefix else CompletePrefix;
    Remainder(p, kw);
  }

  lemma Remainder(p: string, kw: string)
    requires StartsWith(p, kw) && IsLowerCase(p)
    ensures AfterKeyword(p, kw) == Trim(p[|kw|..])
    ensures IsLowerCase(Trim(p[|kw|..]))
  {
    RemovePrefix(p, kw);
    var q := p[|kw|..];
    assert IsLowerCase(q) by {
      forall k | 0 <= k < |q| ensures ToLowerChar(q[k]) == q[k] {
        assert q[k] == p[|kw| + k];
      }
    }
    LowerTrim(q);
  }

  /** Trimming a lower-case string keeps it lower case. */
  lemma LowerTrim(s: string)
    requires IsLowerCase(s)
    ensures IsLowerCase(Trim(s))
  {
    var i := TrimIsInfix(s);
    var t := Trim(s);
    forall k | 0 <= k < |t| ensures ToLowerChar(t[k]) == t[k] {
      assert t[k] == s[i + k];
    }
  }

  /** The prompt of an unhandled utterance is what is sent to the completion service: not empty, trimmed, lower case, no keyword. */
  lemma UnhandledPrompt(input: string)
    requires Classify(input).Unhandled?
    ensures var p := Classify(input).prompt;
      p == Prompt(input) && p != [] && IsTrimmed(p) && IsLowerCase(p)
      && !StartsWith(p, AddTaskPrefix) && !StartsWith(p, CompletePrefix)
  {
  }

  /**
   * A typed command is recognised whatever the case of its keyword and whatever
   * whitespace surrounds it, and what it carries is the argument in lower case.
   */
  lemma {:induction false} ClassifyCommand(w1: string, kw: string, sep: string, arg: string, w2: string)
    requires ToLower(kw) == AddTaskPrefix || ToLower(kw) == CompletePrefix
    requires AllWhitespace(w1) && AllWhitespace(sep) && AllWhitespace(w2)
    requires IsTrimmed(arg) && arg != []
    ensures var c := Classify(w1 + kw + sep + arg + w2);
      if ToLower(kw) == AddTaskPrefix then c == AddTask(ToLower(arg)) else c == Complete(ToLower(arg))
  {
    TypedPrompt(w1, kw, sep, arg, w2);
    KeywordArgument(ToLower(kw), ToLower(sep), ToLower(arg));
  }

  /** The command a keyword, whitespace and an argument make. */
  lemma KeywordArgument(kw: string, sep: string, arg: string)
    requires kw == AddTaskPrefix || kw == CompletePrefix
    requires AllWhitespace(sep) && IsTrimmed(arg)
    ensures kw == AddTaskPrefix ==> ClassifyPrompt(kw + sep + arg) == AddTask(arg)
    ensures kw == CompletePrefix ==> ClassifyPrompt(kw + sep + arg) == Complete(arg)
  {
    assert kw + sep + arg == kw + (sep + arg);
    assert Trim(sep + arg) == arg by {
      TrimSurrounded(sep, arg, []);
      assert sep + arg + [] == sep + arg;
    }
    KeywordPrompt(kw, sep + arg);
  }

  /** A prompt made of a keyword and a remainder is classified by that keyword. */
  lemma KeywordPrompt(kw: string, q: string)
    requires kw == AddTaskPrefix || kw == CompletePrefix
    ensures kw == AddTaskPrefix ==> ClassifyPrompt(kw + q) == AddTask(Trim(q))
    ensures kw == CompletePrefix ==> ClassifyPrompt(kw + q) == Complete(Trim(q))
  {
    var p := kw + q;
    assert p[..|kw|] == kw && p[|kw|..] == q;
    RemovePrefix(p, kw);
    assert AfterKeyword(p, kw) == Trim(q);
    if kw == CompletePrefix {
      assert !StartsWith(p, AddTaskPrefix) by {
        assert p[0] == 'c';
      }
    }
  }

  /** The prompt of such an utterance is its keyword, separator and argument, lower-cased. */
  lemma TypedPrompt(w1: string, kw: string, sep: string, arg: string, w2: string)
    requires ToLower(kw) == AddTaskPrefix || ToLower(kw) == CompletePrefix
    requires AllWhitespace(w1) && AllWhitespace(w2)
    requires IsTrimmed(arg) && arg != []
    ensures Prompt(w1 + kw + sep + arg + w2) == ToLower(kw) + ToLower(sep) + ToLower(arg)
    ensures AllWhitespace(sep) ==> AllWhitespace(ToLower(sep))
    ensures IsTrimmed(ToLower(arg))
  {
    var m := kw + sep + arg;
    assert m[0] == kw[0] && m[|m| - 1] == arg[|arg| - 1];
    assert !IsWhitespace(kw[0]) by {
      assert ToLower(kw)[0] == 'a' || ToLower(kw)[0] == 'c';
    }
    assert IsTrimmed(m);
    assert w1 + kw + sep + arg + w2 == w1 + m + w2;
    TrimSurrounded(w1, m, w2);
    ToLowerAppend(kw, sep);
    ToLowerAppend(kw + sep, arg);
  }

  /** The label every line the bot appends starts with. */
  const BotLabel: string := "Bot: "

  /** The line handleChatCommand appends for a handled command, with the `tasks.find` result awaited. */
  function CommandReply(c: Command, found: bool): (line: string)
    requires c.AddTask? || c.Complete?
    ensures StartsWith(line, BotLabel)
    ensures c.rest != [] && (c.AddTask? || found) ==> OccursAt(line, c.rest, |BotLabel + "Task '"|)
  {
    BotLabel +
      match c
      case AddTask(r) =>
        if r == [] then "Please specify a task to add." else "Task '" + r + "' added!"
      case Complete(r) =>
        if r == [] then "Please specify a task to complete."
        else if found then "Task '" + r + "' marked as complete."
        else "Task not found!"
  }

  /** The line handleChatSend appends for an utterance; `ask` is the completion service. */
  function Reply(c: Command, found: bool, ask: string -> AiOutcome): (line: string)
    ensures StartsWith(line, BotLabel)
  {
    match c
    case Empty => BotLabel + "Please enter a message"
    case Unhandled(p) =>
      (match ask(p)
       case AiText(t) => BotLabel + t
       case AiFailure => BotLabel + "Sorry, I encountered an error. Please try again.")
    case _ => CommandReply(c, found)
  }

  /**
   * The reply as the code computes it: completeTaskByName is called without await, so
   * `taskFound` is a Promise, always truthy, and the not-found line is never chosen.
   */
  function AsWrittenCommandReply(c: Command): (line: string)
    requires c.AddTask? || c.Complete?
    ensures c.Complete? && c.rest != [] ==> line == BotLabel + ("Task '" + c.rest + "' marked as complete.")
  {
    CommandReply(c, true)
  }

  /** The completion service is consulted only for an unhandled utterance, and is asked exactly the prompt. */
  lemma ReplyConsultsAi(c: Command, found: bool, ask1: string -> AiOutcome, ask2: string -> AiOutcome)
    ensures !c.Unhandled? ==> Reply(c, found, ask1) == Reply(c, found, ask2)
    ensures c.Unhandled? && ask1(c.prompt) == ask2(c.prompt) ==> Reply(c, found, ask1) == Reply(c, found, ask2)
  {
  }

  /** For a non-empty task name, "Task not found!" is replied exactly when no task matched. */
  lemma ReplyNotFoundIff(r: string, found: bool)
    requires r != []
    ensures CommandReply(Complete(r), found) == BotLabel + "Task not found!" <==> !found
  {
    if found {
      var line := CommandReply(Complete(r), found);
      assert line[10] == '\'';
      assert (BotLabel + "Task not found!")[10] == 'n';
    }
  }

  /** As written, no chat command ever replies "Task not found!". */
  lemma AsWrittenNeverNotFound(c: Command)
    requires c.AddTask? || c.Complete?
    ensures AsWrittenCommandReply(c) != BotLabel + "Task not found!"
  {
    var line := AsWrittenCommandReply(c);
    if c.Complete? && c.rest != [] {
      assert line[10] == '\'';
    } else if c.AddTask? && c.rest != [] {
      assert line[10] == '\'';
    }
  }
}
