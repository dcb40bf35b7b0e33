/**
 * The conversation bookkeeping of `MemoryResponseDemo`: the list of recorded
 * steps, the message list sent for a new turn, recording a turn, clearing,
 * and importing a saved history.
 */
module ConversationHistory {
  import opened PyText

  /** A chat message `{"role": ..., "content": ...}`. */
  datatype Message = Message(role: string, content: string)

  /**
   * One recorded step. The timestamp, the token total and the temperature
   * are carried as given; the usage dictionary is not modelled.
   */
  datatype ConversationStep = ConversationStep(
    stepNumber: int,
    timestamp: string,
    model: string,
    userInput: string,
    assistantResponse: string,
    messagesAtStep: seq<Message>,
    temperature: Option<real>,
    totalTokens: int)

  /** The text recorded when the response carried no text. */
  const NoResponseText: string := "応答を取得できませんでした"

  /** The two messages one recorded step contributes to later requests. */
  function StepMessages(step: ConversationStep): seq<Message> {
    [Message("user", step.userInput), Message("assistant", step.assistantResponse)]
  }

  /** The past turns as messages, in step order. */
  function History(steps: seq<ConversationStep>): seq<Message> {
    if steps == [] then [] else History(steps[..|steps| - 1]) + StepMessages(steps[|steps| - 1])
  }

  /** Each step contributes its user message and then its assistant message, at positions `2i` and `2i+1`. */
  lemma {:induction false} HistoryShape(steps: seq<ConversationStep>)
    ensures |History(steps)| == 2 * |steps|
    ensures forall i :: 0 <= i < |steps| ==>
      History(steps)[2 * i] == Message("user", steps[i].userInput) &&
      History(steps)[2 * i + 1] == Message("assistant", steps[i].assistantResponse)
  {
    if steps != [] {
      var init := steps[..|steps| - 1];
      HistoryShape(init);
      forall i | 0 <= i < |init| ensures init[i] == steps[i] {
      }
    }
  }

  /** The history of two step lists laid end to end is the two histories laid end to end. */
  lemma {:induction false} HistoryAppend(a: seq<ConversationStep>, b: seq<ConversationStep>)
    ensures History(a + b) == History(a) + History(b)
    decreases |b|
  {
    if b == [] {
      assert a + b == a;
    } else {
      var bInit := b[..|b| - 1];
      assert (a + b)[..|a + b| - 1] == a + bInit;
      HistoryAppend(a, bInit);
    }
  }

  /** Steps are numbered 1, 2, ... in list order. */
  ghost predicate Numbered(steps: seq<ConversationStep>) {
    forall i :: 0 <= i < |steps| ==> steps[i].stepNumber == i + 1
  }

  /**
   * Extending a numbered history with a non-empty numbered import keeps the
   * numbering only when the history was empty: otherwise step numbers repeat.
   */
  lemma ExtendKeepsNumberingOnlyWhenEmpty(current: seq<ConversationStep>, imported: seq<ConversationStep>)
    requires Numbered(current) && Numbered(imported) && imported != []
    ensures Numbered(current + imported) <==> current == []
  {
    if current != [] {
      assert (current + imported)[|current|] == imported[0];
    }
  }

  /** The outcome of reading the uploaded file: not JSON, or a JSON object with or without `conversation_steps`. */
  datatype Upload = Unreadable | Parsed(conversationSteps: Option<seq<ConversationStep>>)

  /** What `_import_conversation` reported. */
  datatype ImportOutcome =
    | Imported(count: nat)
    | AwaitingExecute
    | NoHistoryFound
    | ImportError

  class MemoryResponseDemo {
    /** `self.conversation_steps`, the same list the session state holds under `conversation_steps_{key}`. */
    var conversationSteps: seq<ConversationStep>

    /** `__init__`: the steps already held in the session state, or a fresh empty list. */
    constructor (stored: Option<seq<ConversationStep>>)
      ensures stored.None? ==> conversationSteps == []
      ensures stored.Some? ==> conversationSteps == stored.value
    {
      conversationSteps := match stored case None => [] case Some(steps) => steps;
    }

    /**
     * `_build_conversation_messages`: the default messages, then the user and
     * assistant message of every recorded step in order, then the new input.
     */
    method BuildConversationMessages(defaults: seq<Message>, newUserInput: string) returns (messages: seq<Message>)
      ensures messages == defaults + History(conversationSteps) + [Message("user", newUserInput)]
      ensures |messages| == |defaults| + 2 * |conversationSteps| + 1
    {
      messages := defaults;
      var i := 0;
      while i < |conversationSteps|
        invariant 0 <= i <= |conversationSteps|
        invariant messages == defaults + History(conversationSteps[..i])
      {
        assert conversationSteps[..i + 1][..i] == conversationSteps[..i];
        messages := messages + [Message("user", conversationSteps[i].userInput)];
        messages := messages + [Message("assistant", conversationSteps[i].assistantResponse)];
        i := i + 1;
      }
      assert conversationSteps[..i] == conversationSteps;
      HistoryShape(conversationSteps);
      messages := messages + [Message("user", newUserInput)];
    }

    /**
     * `_process_conversation_step`: records the turn as step `len + 1` with
     * the first response text (or the fallback text) and appends it.
     * `assistantTexts` is what the response yielded; the API call itself is
     * not modelled.
     */
    method ProcessConversationStep(
      defaults: seq<Message>, userInput: string, model: string, timestamp: string,
      temperature: Option<real>, assistantTexts: seq<string>, totalTokens: int)
      returns (step: ConversationStep)
      modifies this
      ensures conversationSteps == old(conversationSteps) + [step]
      ensures step.stepNumber == |old(conversationSteps)| + 1
      ensures step.userInput == userInput && step.model == model
      ensures step.assistantResponse == if assistantTexts == [] then NoResponseText else assistantTexts[0]
      ensures step.messagesAtStep == defaults + History(old(conversationSteps)) + [Message("user", userInput)]
      ensures step.timestamp == timestamp && step.temperature == temperature && step.totalTokens == totalTokens
      ensures Numbered(old(conversationSteps)) ==> Numbered(conversationSteps)
    {
      var messages := BuildConversationMessages(defaults, userInput);
      var assistantResponse := if assistantTexts != [] then assistantTexts[0] else NoResponseText;
      step := ConversationStep(|conversationSteps| + 1, timestamp, model, userInput, assistantResponse,
                               messages, temperature, totalTokens);
      conversationSteps := conversationSteps + [step];
    }

    /** The clear button: the history becomes empty. */
    method ClearConversation()
      modifies this
      ensures conversationSteps == []
    {
      conversationSteps := [];
    }

    /**
     * `_import_conversation`: with `conversation_steps` present and the
     * execute button pressed, replaces the history or extends it with the
     * imported steps; a file without that key, or one that does not parse,
     * changes nothing and reports an error.
     */
    method ImportConversation(upload: Upload, replace: bool, executePressed: bool) returns (outcome: ImportOutcome)
      modifies this
      ensures upload.Unreadable? ==> outcome == ImportError && conversationSteps == old(conversationSteps)
      ensures upload.Parsed? && upload.conversationSteps.None? ==>
        outcome == NoHistoryFound && conversationSteps == old(conversationSteps)
      ensures upload.Parsed? && upload.conversationSteps.Some? && !executePressed ==>
        outcome == AwaitingExecute && conversationSteps == old(conversationSteps)
      ensures upload.Parsed? && upload.conversationSteps.Some? && executePressed ==>
        var imported := upload.conversationSteps.value;
        && outcome == Imported(|imported|)
        && conversationSteps == (if replace then imported else old(conversationSteps) + imported)
    {
      match upload
      case Unreadable =>
        outcome := ImportError;
      case Parsed(None) =>
        outcome := NoHistoryFound;
      case Parsed(Some(importedSteps)) =>
        if !executePressed {
          outcome := AwaitingExecute;
        } else {
          if replace {
            conversationSteps := importedSteps;
          } else {
            conversationSteps := conversationSteps + importedSteps;
          }
          outcome := Imported(|importedSteps|);
        }
    }
  }
}
