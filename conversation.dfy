/** The conversation log of one chat session.

    The log is an ordered list of (role, content) turns that is only ever
    appended to.  Each run of the page script does at most one thing to it:
    a question submitted in the chat box is appended as a user turn (and the
    run restarts); otherwise, when the last turn is a user turn, that
    question is analysed and the answer appended as one assistant turn (and
    the run restarts). */
module Conversation {
  import opened Wrappers

  datatype Role = User | Assistant

  datatype Turn = Turn(role: Role, content: string)

  /** Every assistant turn directly follows a user turn. */
  predicate WellFormed(log: seq<Turn>)
  {
    forall i :: 0 <= i < |log| && log[i].role == Assistant ==> 0 < i && log[i - 1].role == User
  }

  /** The last turn is a user turn, which has not been answered yet. */
  predicate AwaitingReply(log: seq<Turn>)
  {
    |log| > 0 && log[|log| - 1].role == User
  }

  /** The chat box submitted something on this run: Python's truth test on
      its value, so neither "nothing" nor the empty string. */
  predicate Submitted(input: Option<string>)
  {
    input.Some? && input.value != ""
  }

  /** The log after one run of the script.  `input` is what the chat box
      returned on this run; `analyze` answers a question, or is None when the
      analysis raised, which ends the run before anything is appended. */
  function Step(log: seq<Turn>, input: Option<string>, analyze: string -> Option<string>): seq<Turn>
  {
    if Submitted(input) then log + [Turn(User, input.value)]
    else if AwaitingReply(log) then
      match analyze(log[|log| - 1].content)
      case Some(answer) => log + [Turn(Assistant, answer)]
      case None => log
    else log
  }

  /** A run never changes or removes earlier turns and appends at most one;
      a submission appends exactly the submitted user turn. */
  lemma StepAppendOnly(log: seq<Turn>, input: Option<string>, analyze: string -> Option<string>)
    ensures log <= Step(log, input, analyze)
    ensures |Step(log, input, analyze)| <= |log| + 1
    ensures Submitted(input) ==>
              |Step(log, input, analyze)| == |log| + 1 &&
              Step(log, input, analyze)[|log|] == Turn(User, input.value)
  {
  }

  /** An assistant turn is appended only on a run without a submission whose
      log ends in a user turn, and it carries the answer to that turn's
      question. */
  lemma ReplyOnlyAfterUser(log: seq<Turn>, input: Option<string>, analyze: string -> Option<string>)
    requires |Step(log, input, analyze)| > |log|
    requires Step(log, input, analyze)[|log|].role == Assistant
    ensures !Submitted(input) && AwaitingReply(log)
    ensures analyze(log[|log| - 1].content) == Some(Step(log, input, analyze)[|log|].content)
  {
  }

  /** A pending user turn whose analysis succeeds gets exactly that answer
      appended as one assistant turn. */
  lemma ReplyAppendsAnswer(log: seq<Turn>, analyze: string -> Option<string>)
    requires AwaitingReply(log) && analyze(log[|log| - 1].content).Some?
    ensures Step(log, None, analyze) ==
              log + [Turn(Assistant, analyze(log[|log| - 1].content).value)]
  {
  }

  /** A user turn gets one answer and not two: once a run has answered it,
      a further run without a submission appends nothing, whatever its own
      analysis would return. */
  lemma ReplyOnce(log: seq<Turn>, first: string -> Option<string>, second: string -> Option<string>)
    requires Step(log, None, first) != log
    ensures Step(Step(log, None, first), None, second) == Step(log, None, first)
  {
  }

  /** Runs keep the log well formed. */
  lemma StepPreservesWellFormed(log: seq<Turn>, input: Option<string>, analyze: string -> Option<string>)
    requires WellFormed(log)
    ensures WellFormed(Step(log, input, analyze))
  {
    var next := Step(log, input, analyze);
    forall i | 0 <= i < |next| && next[i].role == Assistant
      ensures 0 < i && next[i - 1].role == User
    {
      if i == |log| {
        ReplyOnlyAfterUser(log, input, analyze);
      }
    }
  }

  function CountRole(log: seq<Turn>, role: Role): nat
  {
    if log == [] then 0
    else CountRole(log[..|log| - 1], role) + (if log[|log| - 1].role == role then 1 else 0)
  }

  /** In a well-formed log there are never more answers than questions. */
  lemma {:induction false} AnswersNeverExceedQuestions(log: seq<Turn>)
    requires WellFormed(log)
    ensures CountRole(log, Assistant) <= CountRole(log, User)
    ensures AwaitingReply(log) ==> CountRole(log, Assistant) < CountRole(log, User)
  {
    if log != [] {
      var init := log[..|log| - 1];
      assert WellFormed(init);
      AnswersNeverExceedQuestions(init);
      if log[|log| - 1].role == Assistant {
        assert AwaitingReply(init);
      }
    }
  }

  /** The session's message list. */
  class Session {
    var messages: seq<Turn>

    ghost predicate Valid()
      reads this
    {
      WellFormed(messages)
    }

    /** A new session starts with an empty log. */
    constructor ()
      ensures Valid() && messages == []
    {
      messages := [];
    }

    /** One run of the chat part of the script. */
    method Run(input: Option<string>, analyze: string -> Option<string>)
      requires Valid()
      modifies this
      ensures Valid()
      ensures messages == Step(old(messages), input, analyze)
    {
      StepPreservesWellFormed(messages, input, analyze);
      if input.Some? && input.value != "" {
        messages := messages + [Turn(User, input.value)];
        return;
      }
      if |messages| > 0 && messages[|messages| - 1].role == User {
        var query := messages[|messages| - 1].content;
        var response := analyze(query);
        match response
        case None =>
          return;
        case Some(answer) =>
          messages := messages + [Turn(Assistant, answer)];
      }
    }
  }
}
