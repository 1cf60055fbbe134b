/** Prompt assembly of pages/api/interview/ask.js: the numbered context
    string, the `contents` list sent to the generation service, and the
    choice of the user text that is persisted. */
module Prompt {
  import opened Wrappers
  import opened Text

  /** One part of a conversation turn. */
  datatype Part = Part(text: string)

  /** One turn of the conversation history: a role (`user` or `model`) and
      its parts. */
  datatype Turn = Turn(role: string, parts: seq<Part>)

  const UserRole := "user"
  const ContextSeparator := "\n\n"
  const PromptHead := "Here is the relevant context from the resume and job description:\n"
  const PromptTail := "\n\nBased on this context and our conversation so far, ask the next interview question."

  /** Block `i` (counting from 0) of the context string: `CONTEXT ${i+1}:\n${c}`. */
  function ContextBlock(i: nat, c: string): string {
    "CONTEXT " + NatToString(i + 1) + ":\n" + c
  }

  /** `context.map((c, i) => ...)`. */
  function Blocks(context: seq<string>): (r: seq<string>)
    ensures |r| == |context|
    ensures forall i :: 0 <= i < |r| ==> r[i] == ContextBlock(i, context[i])
  {
    seq(|context|, i requires 0 <= i < |context| => ContextBlock(i, context[i]))
  }

  /** `contextString`: the blocks joined by a blank line. */
  function ContextString(context: seq<string>): string {
    Join(Blocks(context), ContextSeparator)
  }

  /** No context gives the empty string. */
  lemma ContextStringEmpty()
    ensures ContextString([]) == ""
  {
  }

  /** One context text gives a single block numbered 1. */
  lemma ContextStringSingle(c: string)
    ensures ContextString([c]) == "CONTEXT 1:\n" + c
  {
    assert NatToString(1) == "1";
  }

  /** A further context text appends a blank line and the next numbered block:
      the context string is the blocks `CONTEXT 1`, ..., `CONTEXT n` in order. */
  lemma ContextStringSnoc(context: seq<string>, c: string)
    requires context != []
    ensures ContextString(context + [c])
         == ContextString(context) + ContextSeparator + ContextBlock(|context|, c)
  {
    assert Blocks(context + [c]) == Blocks(context) + [ContextBlock(|context|, c)];
    JoinSnoc(Blocks(context), ContextBlock(|context|, c), ContextSeparator);
  }

  /** A non-empty context string starts with the first block. */
  lemma ContextStringStartsWithFirst(context: seq<string>)
    requires context != []
    ensures var b := ContextBlock(0, context[0]);
      |b| <= |ContextString(context)| && ContextString(context)[..|b|] == b
  {
    var b := Blocks(context);
    if |context| > 1 {
      assert ContextString(context) == b[0] + ContextSeparator + Join(b[1..], ContextSeparator);
    }
  }

  /** The final turn added to the history. */
  function PromptTurn(contextString: string): (r: Turn)
    ensures r.role == UserRole && |r.parts| == 1
    ensures |r.parts[0].text| == |PromptHead| + |contextString| + |PromptTail|
    ensures r.parts[0].text[|PromptHead|..|PromptHead| + |contextString|] == contextString
  {
    var t := PromptHead + contextString + PromptTail;
    assert t[|PromptHead|..|PromptHead| + |contextString|] == contextString;
    Turn(UserRole, [Part(t)])
  }

  /** `contents`: the history as received, then exactly one user turn that
      carries the context string. */
  function Contents(history: seq<Turn>, contextString: string): (r: seq<Turn>)
    ensures |r| == |history| + 1
    ensures r[..|history|] == history
    ensures r[|history|] == PromptTurn(contextString)
  {
    history + [PromptTurn(contextString)]
  }

  /** `history.find(h => h.role === 'user')`, as an index: the first turn with
      the user role, if any. */
  function FirstUserTurn(history: seq<Turn>): (r: Option<nat>)
    ensures r.None? <==> forall i :: 0 <= i < |history| ==> history[i].role != UserRole
    ensures r.Some? ==> r.value < |history| && history[r.value].role == UserRole
    ensures r.Some? ==> forall i :: 0 <= i < r.value ==> history[i].role != UserRole
  {
    if history == [] then None
    else if history[0].role == UserRole then Some(0)
    else match FirstUserTurn(history[1..])
      case None => None
      case Some(k) => Some(k + 1)
  }

  /** `history.find(...)?.parts[0]?.text || query`: the text of the first part
      of the first user turn, unless there is no such turn, it has no parts,
      or that text is empty; then the current query. */
  function PersistedUserText(history: seq<Turn>, query: string): string {
    match FirstUserTurn(history)
    case None => query
    case Some(k) =>
      if |history[k].parts| > 0 && history[k].parts[0].text != "" then history[k].parts[0].text
      else query
  }

  /** The persisted text, stated through the first user turn itself: when
      turn `k` has the user role and no earlier turn does, the text is the
      first part of turn `k` if that is present and non-empty, the query
      otherwise; with no user turn at all it is the query. */
  lemma PersistedUserTextSource(history: seq<Turn>, query: string)
    ensures forall k :: 0 <= k < |history| && history[k].role == UserRole
                        && (forall i :: 0 <= i < k ==> history[i].role != UserRole) ==>
      PersistedUserText(history, query)
        == (if |history[k].parts| > 0 && history[k].parts[0].text != "" then history[k].parts[0].text else query)
    ensures (forall i :: 0 <= i < |history| ==> history[i].role != UserRole) ==>
      PersistedUserText(history, query) == query
    ensures query != "" ==> PersistedUserText(history, query) != ""
  {
    var f := FirstUserTurn(history);
    forall k | 0 <= k < |history| && history[k].role == UserRole
               && (forall i :: 0 <= i < k ==> history[i].role != UserRole)
      ensures f == Some(k)
    {
      assert f.Some?;
    }
  }

  /** The persisted text is the earliest user answer in the forwarded
      history, not the current query, when the history already holds one. */
  lemma PersistedTextIsEarliestAnswer()
    ensures PersistedUserText([Turn(UserRole, [Part("first answer")]), Turn("model", [Part("next question")])],
                              "second answer") == "first answer"
  {
    var h := [Turn(UserRole, [Part("first answer")]), Turn("model", [Part("next question")])];
    assert h[0].role == UserRole;
  }
}
