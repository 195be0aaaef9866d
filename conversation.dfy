/** The turn handler: when the user presses the button with a question that is
    not blank, the question and then its answer are appended to the chat
    history of the session. The answer comes from the intent matcher, or, when
    the matcher has none, from the model gateway asked about the question
    alone (the earlier turns are not sent). */
module Conversation {
  import opened Wrappers
  import opened Text
  import opened Tables
  import opened IntentMatcher
  import opened Gateway

  /** The history alternates user and assistant turns, starting with a user
      turn, and every question has its answer. */
  ghost predicate Alternating(history: seq<Turn>)
  {
    && |history| % 2 == 0
    && forall i :: 0 <= i < |history| ==> history[i].role == (if i % 2 == 0 then "user" else "assistant")
  }

  /** A submission is handled when the button was pressed and the input is not
      blank after `strip()`. */
  predicate Accepted(pressed: bool, input: string)
  {
    pressed && Strip(input) != ""
  }

  /** The answer to a question: the matcher's, else the gateway's for the
      one-message conversation `[{"role": "user", "content": input}]`. */
  function Respond(input: string, courses: seq<Course>, students: seq<Student>,
                   endpoint: Request -> Result<seq<Event>, string>): string
  {
    match Answer(input, courses, students)
    case Some(a) => a
    case None => ModelReply([Message("user", input, map[])], endpoint)
  }

  /** The model is consulted exactly when no trigger phrase occurs in the
      lowercased question; otherwise the answer is the matcher's. */
  lemma RespondFallsBackToModel(input: string, courses: seq<Course>, students: seq<Student>,
                                endpoint: Request -> Result<seq<Event>, string>)
    ensures !AnyTrigger(Lower(input)) ==>
      Respond(input, courses, students, endpoint) == ModelReply([Message("user", input, map[])], endpoint)
    ensures AnyTrigger(Lower(input)) ==>
      Answer(input, courses, students).Some? &&
      Respond(input, courses, students, endpoint) == Answer(input, courses, students).value
  {
    AnswerNoneIff(input, courses, students);
  }

  /** The history after one submission. */
  function AfterSubmit(history: seq<Turn>, pressed: bool, input: string, courses: seq<Course>,
                       students: seq<Student>, endpoint: Request -> Result<seq<Event>, string>): (r: seq<Turn>)
    ensures |r| == |history| + (if Accepted(pressed, input) then 2 else 0)
    ensures r[..|history|] == history
    ensures Alternating(history) ==> Alternating(r)
  {
    if Accepted(pressed, input) then
      var answer := Respond(input, courses, students, endpoint);
      ExchangeKeepsAlternation(history, input, answer);
      history + [Turn("user", input), Turn("assistant", answer)]
    else history
  }

  /** Appending a question and its answer keeps the history alternating. */
  lemma ExchangeKeepsAlternation(history: seq<Turn>, question: string, answer: string)
    ensures |history + [Turn("user", question), Turn("assistant", answer)]| == |history| + 2
    ensures (history + [Turn("user", question), Turn("assistant", answer)])[..|history|] == history
    ensures Alternating(history) ==> Alternating(history + [Turn("user", question), Turn("assistant", answer)])
  {
  }

  /** The model is asked exactly the question, as a single user turn. */
  lemma ModelSeesOnlyTheQuestion(input: string)
    ensures BuildRequest([Message("user", input, map[])]).body.messages == [Turn("user", input)]
  {
    assert [Message("user", input, map[])][1..] == [];
  }

  /** A submission is handled exactly when the input has a character that is
      not whitespace. */
  lemma AcceptedIff(pressed: bool, input: string)
    ensures Accepted(pressed, input) <==> pressed && exists i :: 0 <= i < |input| && !IsSpace(input[i])
  {
    StripEmptyIff(input);
  }

  /** The session state: `st.session_state.chat_history`. */
  class Session {
    var history: seq<Turn>

    ghost predicate Valid()
      reads this
    {
      Alternating(history)
    }

    /** A new session starts with an empty history. */
    constructor ()
      ensures Valid() && history == []
    {
      history := [];
    }

    /** The submit block: append the question, find the answer, append it.
        It computes `AfterSubmit`; the answer it finds is `Respond`'s. */
    method Submit(pressed: bool, input: string, courses: seq<Course>, students: seq<Student>,
                  endpoint: Request -> Result<seq<Event>, string>)
      requires Valid()
      modifies this
      ensures Valid()
      ensures history == AfterSubmit(old(history), pressed, input, courses, students, endpoint)
    {
      if pressed && Strip(input) != "" {
        ghost var before := history;
        var question := Turn("user", input);
        history := history + [question];
        var reply := Answer(input, courses, students);
        var text: string;
        if reply.None? {
          text := CallModel([Message("user", input, map[])], endpoint);
        } else {
          text := reply.value;
        }
        var answer := Turn("assistant", text);
        history := history + [answer];
        AppendTwo(before, question, answer);
        ExchangeKeepsAlternation(before, input, text);
      }
    }
  }

  lemma AppendTwo(h: seq<Turn>, a: Turn, b: Turn)
    ensures h + [a] + [b] == h + [a, b]
  {
  }

  /** A submission: whether the button was pressed, and the text typed. */
  datatype Submission = Submission(pressed: bool, input: string)

  /** The history after a sequence of submissions. */
  function Replay(history: seq<Turn>, submissions: seq<Submission>, courses: seq<Course>,
                  students: seq<Student>, endpoint: Request -> Result<seq<Event>, string>): seq<Turn>
  {
    if submissions == [] then history
    else
      var s := submissions[|submissions| - 1];
      AfterSubmit(Replay(history, submissions[..|submissions| - 1], courses, students, endpoint),
                  s.pressed, s.input, courses, students, endpoint)
  }

  /** The number of submissions that are handled. */
  function AcceptedCount(submissions: seq<Submission>): nat
  {
    if submissions == [] then 0
    else
      var s := submissions[|submissions| - 1];
      AcceptedCount(submissions[..|submissions| - 1]) + (if Accepted(s.pressed, s.input) then 1 else 0)
  }

  /** After N handled submissions from an empty history, the history holds 2N
      turns alternating user and assistant, starting with a user turn. */
  lemma {:induction false} ReplayFromEmpty(submissions: seq<Submission>, courses: seq<Course>,
                                           students: seq<Student>, endpoint: Request -> Result<seq<Event>, string>)
    ensures |Replay([], submissions, courses, students, endpoint)| == 2 * AcceptedCount(submissions)
    ensures Alternating(Replay([], submissions, courses, students, endpoint))
  {
    if submissions != [] {
      ReplayFromEmpty(submissions[..|submissions| - 1], courses, students, endpoint);
    }
  }

  /** Each handled submission's question and answer are the two turns it adds. */
  lemma SubmitAppendsQuestionAndAnswer(history: seq<Turn>, pressed: bool, input: string, courses: seq<Course>,
                                       students: seq<Student>, endpoint: Request -> Result<seq<Event>, string>)
    requires Accepted(pressed, input)
    ensures AfterSubmit(history, pressed, input, courses, students, endpoint)[|history|..] ==
      [Turn("user", input), Turn("assistant", Respond(input, courses, students, endpoint))]
  {
  }
}
