/**
  The conversation history sent to the language model (src/conversation.cpp).

  The history is one process-wide list of (role, content) entries. It starts
  empty, `initializeConversation` appends the fixed opening script (a system
  prompt followed by alternating user and assistant turns), `buildPrompt`
  appends the speaker's message, `addEllieResponse` appends the model's
  reply, and `clearHistory` drops everything and appends the script again.
  The list is serialised to JSON by a library, so the prompt is modelled as
  the list itself.
*/
module Conversation {

  datatype Role = System | User | Assistant

  datatype Entry = Entry(role: Role, content: string)

  /** The number of entries the opening script pushes (conversation.cpp:11-703). */
  const InitialScriptLength := 133

  /**
    The shape of the opening script: a system prompt, then user and
    assistant turns strictly alternating, ending with an assistant turn.
  */
  predicate IsInitialScript(script: seq<Entry>) {
    && |script| == InitialScriptLength
    && script[0].role == System
    && forall i :: 1 <= i < |script| ==> script[i].role == (if i % 2 == 1 then User else Assistant)
  }

  /** The content of a user entry: "[" + name + "]: " + input (conversation.cpp:708-709). */
  function FormatUserInput(userName: string, userInput: string): (r: string)
    ensures |r| == |userName| + |userInput| + 4
    ensures r[0] == '[' && r[1..|userName| + 1] == userName
    ensures r[|userName| + 1..|userName| + 4] == "]: " && r[|userName| + 4..] == userInput
  {
    "[" + userName + "]: " + userInput
  }

  /**
    A name without ']' can be read back from the formatted entry: the first
    ']' closes the name, so different speakers or inputs never produce the
    same content.
  */
  lemma FormatUserInputInjective(n1: string, i1: string, n2: string, i2: string)
    requires forall k :: 0 <= k < |n1| ==> n1[k] != ']'
    requires forall k :: 0 <= k < |n2| ==> n2[k] != ']'
    requires FormatUserInput(n1, i1) == FormatUserInput(n2, i2)
    ensures n1 == n2 && i1 == i2
  {
    if |n1| < |n2| {
      NameHasNoClosingBracket(n2, i2, |n1| + 1);
      ClosingBracketAfterName(n1, i1);
    } else if |n2| < |n1| {
      NameHasNoClosingBracket(n1, i1, |n2| + 1);
      ClosingBracketAfterName(n2, i2);
    }
  }

  lemma ClosingBracketAfterName(n: string, i: string)
    ensures FormatUserInput(n, i)[|n| + 1] == ']'
  {
    assert FormatUserInput(n, i)[|n| + 1] == FormatUserInput(n, i)[|n| + 1..|n| + 4][0];
  }

  lemma NameHasNoClosingBracket(n: string, i: string, k: nat)
    requires forall j :: 0 <= j < |n| ==> n[j] != ']'
    requires 1 <= k <= |n|
    ensures FormatUserInput(n, i)[k] != ']'
  {
    assert FormatUserInput(n, i)[k] == FormatUserInput(n, i)[1..|n| + 1][k - 1];
  }

  /** The history list; `script` stands for the fixed text pushed by `initializeConversation`. */
  class ConversationStore {
    const script: seq<Entry>
    var history: seq<Entry>

    /** The static `json::array()` starts empty (conversation.cpp:7). */
    constructor(script: seq<Entry>)
      requires IsInitialScript(script)
      ensures this.script == script && history == []
    {
      this.script := script;
      history := [];
    }

    /** `initializeConversation` (conversation.cpp:9-704): appends the script, without a reset. */
    method InitializeConversation()
      modifies this
      ensures history == old(history) + script
      ensures IsInitialScript(script) ==> history[|old(history)|].role == System
    {
      var i := 0;
      while i < |script|
        invariant 0 <= i <= |script|
        invariant history == old(history) + script[..i]
      {
        history := history + [script[i]];
        i := i + 1;
      }
      assert script[..i] == script;
    }

    /**
      `buildPrompt` (conversation.cpp:706-719): appends the speaker's entry and
      returns the whole history, the new entry included.
    */
    method BuildPrompt(userInput: string, userName: string) returns (prompt: seq<Entry>)
      modifies this
      ensures history == old(history) + [Entry(User, FormatUserInput(userName, userInput))]
      ensures prompt == history
    {
      var formattedInput := FormatUserInput(userName, userInput);
      history := history + [Entry(User, formattedInput)];
      prompt := history;
    }

    /** `addEllieResponse` (conversation.cpp:721-727): appends the reply verbatim. */
    method AddEllieResponse(response: string)
      modifies this
      ensures history == old(history) + [Entry(Assistant, response)]
    {
      history := history + [Entry(Assistant, response)];
    }

    /** `clearHistory` (conversation.cpp:729-732): whatever came before, only the script remains. */
    method ClearHistory()
      modifies this
      ensures history == script
    {
      history := [];
      InitializeConversation();
    }
  }

}
